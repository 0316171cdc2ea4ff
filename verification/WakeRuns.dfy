/** Whole runs of the wake coordinator: what holds after any sequence of sleeps, wakes, steps and stops. */
module WakeRuns {
  import opened WakeCoordination

  datatype Event =
    | Sleep(before: Snapshot)
    | Wake(source: Source, nowMs: int, current: Snapshot)
    | Tick(o: Observation)
    | Drop
    | Cancel

  /** The machine and what an observer remembers: the clock, and of the current or last run its actions, since when
      the core is seen dead (-1 if it is not), whether the network was found ready, whether the restore was dropped;
      further when the last wake was accepted and whether a sleep came after it. */
  datatype History = History(s: State, clock: int, acts: seq<Step>, deadFrom: int, sawReady: bool, dropped: bool,
                             acceptedAt: int, sleptSince: bool)

  const START := History(INITIAL, 0, [], -1, false, false, -1, false)

  /** The order in which actions may come; 0 for steps that do nothing. */
  function Rank(st: Step): nat {
    match st
    case RestartProfile(_, _, _, _) => 1
    case CheckModes(_, _) => 2
    case UpdateSubscriptions(_) => 3
    case _ => 0
  }

  /** Since when the core is seen dead; observations during a pending start do not count. */
  function SeenDead(since: int, o: Observation): int {
    if o.startPending then since
    else if o.coreRunning then -1
    else if since < 0 then o.nowMs
    else since
  }

  predicate FoundReady(o: Observation, elapsed: int) {
    o.reachability == Online || (o.reachability == Unknown && elapsed >= NO_REACHABILITY_DELAY_MS)
  }

  function Record(h: History, e: Event): History {
    match e
    case Sleep(before) => h.(s := Slept(h.s, before), sleptSince := true)
    case Wake(source, nowMs, current) =>
      if Accepts(h.s, nowMs)
      then History(Woken(h.s, source, nowMs, current), nowMs, [], -1, false, false, nowMs, false)
      else h.(clock := nowMs)
    case Tick(o) =>
      var (s, st) := Stepped(h.s, o);
      h.(s := s, clock := o.nowMs,
         acts := if Rank(st) > 0 then h.acts + [st] else h.acts,
         deadFrom := if h.s.active then SeenDead(h.deadFrom, o) else h.deadFrom,
         sawReady := h.sawReady || (h.s.active && !o.blocked && FoundReady(o, o.nowMs - h.s.wakeAtMs)))
    case Drop => h.(s := Dropped(h.s), dropped := true)
    case Cancel => h.(s := Cancelled(h.s))
  }

  function Replay(events: seq<Event>): History {
    if events == [] then START else Record(Replay(events[..|events| - 1]), events[|events| - 1])
  }

  /** The clock never goes back. */
  predicate InTime(clock: int, e: Event) {
    match e case Wake(_, nowMs, _) => nowMs >= clock case Tick(o) => o.nowMs >= clock case _ => true
  }

  predicate Timed(events: seq<Event>) {
    events == [] ||
    (Timed(events[..|events| - 1]) && InTime(Replay(events[..|events| - 1]).clock, events[|events| - 1]))
  }

  predicate Ascending(acts: seq<Step>) {
    && (forall i :: 0 <= i < |acts| ==> Rank(acts[i]) > 0)
    && (forall i, j :: 0 <= i < j < |acts| ==> Rank(acts[i]) < Rank(acts[j]))
  }

  /** No action of rank above `r` so far. */
  predicate UpTo(acts: seq<Step>, r: int) {
    forall i :: 0 <= i < |acts| ==> Rank(acts[i]) <= r
  }

  predicate Consistent(h: History) {
    && Ascending(h.acts)
    && h.clock >= 0 && h.deadFrom <= h.clock
    && h.s.lastWakeMs == h.acceptedAt && -1 <= h.acceptedAt <= h.clock
    && (h.s.hasSleepSnapshot <==> h.sleptSince)
    && (h.dropped ==> h.s.snapshot == NO_SNAPSHOT)
    && (h.s.active ==>
          && h.s.wakeAtMs == h.acceptedAt
          && UpTo(h.acts, h.s.phase.Rank() - 1)
          && (h.s.networkReady ==> h.sawReady)
          && (h.s.phase.Rank() <= 1 && h.s.coreDeadSinceMs >= 0 ==> 0 <= h.deadFrom <= h.s.coreDeadSinceMs)
          && (h.s.phase == Network ==> h.s.coreDeadSinceMs == -1))
  }

  /** What an event may do, given what came before. */
  predicate Allowed(h: History, e: Event) {
    match e
    case Tick(o) =>
      var (s, st) := Stepped(h.s, o);
      && (Rank(st) > 0 ==> h.s.active && !o.blocked && o.nowMs - h.acceptedAt < RUN_MAX_MS)
      && (o.nowMs - h.acceptedAt >= RUN_MAX_MS ==> !s.active)
      && (st.RestartProfile? ==>
            var since := SeenDead(h.deadFrom, o);
            !h.dropped && !o.coreRunning && since >= 0 && o.nowMs - since >= CORE_GRACE_MS)
      && (st.CheckModes? ==> !h.dropped)
      && (st.UpdateSubscriptions? ==> Record(h, e).sawReady)
    case Wake(_, nowMs, _) =>
      Accepts(h.s, nowMs) && h.acceptedAt >= 0 && nowMs - h.acceptedAt < DEDUPE_MS ==> h.sleptSince
    case _ => true
  }

  // ----- one step at a time

  /** What a step of the phases may start from: the part of `Consistent` that it depends on. */
  predicate Sound(s: State, o: Observation, deadFrom: int, sawReady: bool) {
    && s.active && 0 <= o.nowMs && deadFrom <= o.nowMs
    && (s.networkReady ==> sawReady || FoundReady(o, o.nowMs - s.wakeAtMs))
    && (s.phase.Rank() <= 1 && s.coreDeadSinceMs >= 0 ==> 0 <= deadFrom <= s.coreDeadSinceMs)
    && (s.phase == Network ==> s.coreDeadSinceMs == -1)
  }

  /** What the step keeps, with `t` the state it ends in. */
  predicate Kept(s: State, o: Observation, deadFrom: int, sawReady: bool, t: State, st: Step) {
    && t.phase.Rank() >= s.phase.Rank()
    && t.(active := true, phase := s.phase, coreDeadSinceMs := s.coreDeadSinceMs, networkReady := s.networkReady) == s
    && (Rank(st) > 0 ==> Rank(st) >= s.phase.Rank())
    && (t.active ==> Rank(st) < t.phase.Rank() || Rank(st) == 0)
    && (t.networkReady ==> sawReady || FoundReady(o, o.nowMs - s.wakeAtMs))
    && (t.active && t.phase.Rank() <= 1 && t.coreDeadSinceMs >= 0 ==> 0 <= SeenDead(deadFrom, o) <= t.coreDeadSinceMs)
    && (t.active && t.phase == Network ==> t.coreDeadSinceMs == -1)
    && (st.RestartProfile? ==>
          && s.snapshot.profileId >= 0 && !o.coreRunning
          && SeenDead(deadFrom, o) >= 0 && o.nowMs - SeenDead(deadFrom, o) >= CORE_GRACE_MS)
    && (st.CheckModes? ==> s.snapshot.modes != NO_SNAPSHOT.modes)
    && (st.UpdateSubscriptions? ==> t.networkReady)
  }

  lemma SubsKeep(s: State, o: Observation, deadFrom: int, sawReady: bool)
    requires Sound(s, o, deadFrom, sawReady) && s.phase == Subs
    ensures Kept(s, o, deadFrom, sawReady, Phases(s, o).0, Phases(s, o).1)
  {
  }

  lemma ModesKeep(s: State, o: Observation, deadFrom: int, sawReady: bool)
    requires Sound(s, o, deadFrom, sawReady) && s.phase == ModesPhase
    ensures Kept(s, o, deadFrom, sawReady, Phases(s, o).0, Phases(s, o).1)
  {
    SubsKeep(s.(phase := Subs), o, deadFrom, sawReady);
  }

  lemma CoreKeeps(s: State, o: Observation, deadFrom: int, sawReady: bool)
    requires Sound(s, o, deadFrom, sawReady) && s.phase == Core
    ensures Kept(s, o, deadFrom, sawReady, Phases(s, o).0, Phases(s, o).1)
  {
    ModesKeep(s.(phase := ModesPhase), o, deadFrom, sawReady);
    ModesKeep(s.(phase := ModesPhase, coreDeadSinceMs := -1), o, deadFrom, sawReady);
  }

  lemma PhasesKeep(s: State, o: Observation, deadFrom: int, sawReady: bool)
    requires Sound(s, o, deadFrom, sawReady)
    ensures Kept(s, o, deadFrom, sawReady, Phases(s, o).0, Phases(s, o).1)
  {
    match s.phase
    case Network =>
      if FoundReady(o, o.nowMs - s.wakeAtMs) {
        CoreKeeps(s.(networkReady := true, phase := Core), o, deadFrom, sawReady);
      } else {
        CoreKeeps(s.(networkReady := false, phase := Core), o, deadFrom, sawReady);
      }
    case Core => CoreKeeps(s, o, deadFrom, sawReady);
    case ModesPhase => ModesKeep(s, o, deadFrom, sawReady);
    case Subs => SubsKeep(s, o, deadFrom, sawReady);
  }

  lemma AppendAscending(acts: seq<Step>, st: Step, r: int)
    requires Ascending(acts) && UpTo(acts, r - 1) && Rank(st) >= r && Rank(st) > 0
    ensures Ascending(acts + [st]) && UpTo(acts + [st], Rank(st))
  {
  }

  /** The step reaches the phases: it neither finds the run over nor ends it for blocking or lateness. */
  predicate Proceeds(s: State, o: Observation) {
    s.active && !o.blocked && o.nowMs - s.wakeAtMs < RUN_MAX_MS
  }

  lemma TickKeeps(h: History, o: Observation)
    requires Consistent(h) && o.nowMs >= h.clock
    ensures Consistent(Record(h, Tick(o)))
  {
    hide Phases;
    if Proceeds(h.s, o) {
      hide FoundReady, SeenDead;
      var st := Stepped(h.s, o).1;
      PhasesKeep(h.s, o, h.deadFrom, h.sawReady);
      SeenDeadInPast(h.deadFrom, o);
      if Rank(st) > 0 {
        AppendAscending(h.acts, st, h.s.phase.Rank());
      }
    }
  }

  lemma SeenDeadInPast(since: int, o: Observation)
    requires since <= o.nowMs && o.nowMs >= 0
    ensures SeenDead(since, o) <= o.nowMs
  {
  }

  lemma TickIsAllowed(h: History, o: Observation)
    requires Consistent(h) && o.nowMs >= h.clock
    ensures Allowed(h, Tick(o))
  {
    hide Phases, UpTo, Ascending;
    if Proceeds(h.s, o) {
      PhasesKeep(h.s, o, h.deadFrom, h.sawReady);
    }
  }

  lemma EventKeeps(h: History, e: Event)
    requires Consistent(h) && InTime(h.clock, e)
    ensures Consistent(Record(h, e)) && Allowed(h, e)
  {
    match e
    case Tick(o) =>
      TickKeeps(h, o);
      TickIsAllowed(h, o);
    case _ =>
  }

  // ----- whole runs

  lemma {:induction false} HistoriesAreConsistent(events: seq<Event>)
    requires Timed(events)
    ensures Consistent(Replay(events))
  {
    if events != [] {
      HistoriesAreConsistent(events[..|events| - 1]);
      EventKeeps(Replay(events[..|events| - 1]), events[|events| - 1]);
    }
  }

  /** Restart, mode check and subscription update come at most once in a run, and in that order. */
  lemma ActionsComeInOrder(events: seq<Event>)
    requires Timed(events)
    ensures Ascending(Replay(events).acts)
  {
    HistoriesAreConsistent(events);
  }

  /** Every event of every history is one that its past allows. */
  lemma HistoriesAreSafe(events: seq<Event>, i: nat)
    requires Timed(events) && i < |events|
    ensures Allowed(Replay(events[..i]), events[i])
  {
    TimedPrefix(events, i + 1);
    assert events[..i + 1][..i] == events[..i];
    HistoriesAreConsistent(events[..i]);
    EventKeeps(Replay(events[..i]), events[i]);
  }

  lemma {:induction false} TimedPrefix(events: seq<Event>, n: nat)
    requires Timed(events) && n <= |events|
    ensures Timed(events[..n])
    decreases |events|
  {
    if n == |events| {
      assert events[..n] == events;
    } else {
      TimedPrefix(events[..|events| - 1], n);
      assert events[..|events| - 1][..n] == events[..n];
    }
  }

  /** A tick that could tell whether the core was up. */
  predicate Tells(e: Event, up: bool) {
    e.Tick? && !e.o.startPending && e.o.coreRunning == up
  }

  /** Event j is a wake that begins a run. */
  predicate Begins(events: seq<Event>, j: int) {
    0 <= j < |events| && events[j].Wake? && Accepts(Replay(events[..j]).s, events[j].nowMs)
  }

  /** The run is active before each of the events i to n. */
  predicate RunsOn(events: seq<Event>, i: nat, n: nat) {
    forall m :: i <= m <= n <= |events| ==> Replay(events[..m]).s.active
  }

  /** Tick i of the last run saw the core dead, and no tick of the run after it saw the core up. */
  predicate DeadSince(events: seq<Event>, i: nat) {
    && i < |events| && Tells(events[i], false) && Replay(events[..i]).s.active
    && (forall j :: i < j < |events| ==> !Begins(events, j))
    && forall j :: i < j < |events| && Replay(events[..j]).s.active ==> !Tells(events[j], true)
  }

  lemma DeadStays(events: seq<Event>, i: nat)
    requires events != [] && DeadSince(events[..|events| - 1], i) && !Begins(events, |events| - 1)
    requires Replay(events[..|events| - 1]).s.active ==> !Tells(events[|events| - 1], true)
    ensures DeadSince(events, i)
  {
    hide Replay, Tells, Accepts;
    var front := events[..|events| - 1];
    assert events[i] == front[i] && events[..i] == front[..i];
    forall j | i < j < |events|
      ensures !Begins(events, j)
    {
      if j < |front| {
        assert front[..j] == events[..j] && front[j] == events[j];
        assert !Begins(front, j);
      }
    }
    forall j | i < j < |events| && Replay(events[..j]).s.active
      ensures !Tells(events[j], true)
    {
      if j < |front| {
        assert front[..j] == events[..j] && front[j] == events[j];
      }
    }
  }

  /** `deadFrom` is the time of a tick of the last run that saw the core dead, with none after it in that run that saw
      the core up. */
  lemma {:induction false} DeadFromMeans(events: seq<Event>) returns (i: nat)
    requires Replay(events).deadFrom >= 0
    ensures DeadSince(events, i) && events[i].o.nowMs == Replay(events).deadFrom
  {
    hide Stepped, Woken, Accepts;
    var n := |events| - 1;
    var h, e := Replay(events[..n]), events[n];
    if Tells(e, false) && h.s.active && h.deadFrom < 0 {
      i := n;
    } else {
      i := DeadFromMeans(events[..n]);
      DeadStays(events, i);
    }
  }

  lemma OnlyWakesBegin(h: History, e: Event)
    requires !h.s.active && Record(h, e).s.active
    ensures e.Wake? && Accepts(h.s, e.nowMs)
  {
  }

  /** A run that is active before event n, with none begun after event i, was active all the way. */
  lemma {:induction false} RanOn(events: seq<Event>, i: nat, n: nat)
    requires i <= n <= |events| && Replay(events[..n]).s.active && forall j :: i <= j < n ==> !Begins(events, j)
    ensures RunsOn(events, i, n)
    decreases n
  {
    if i < n {
      hide Record, Accepts;
      assert events[..n][..n - 1] == events[..n - 1];
      assert !Begins(events, n - 1);
      if !Replay(events[..n - 1]).s.active {
        OnlyWakesBegin(Replay(events[..n - 1]), events[n - 1]);
      }
      RanOn(events, i, n - 1);
    }
  }

  predicate SawUp(e: Event) {
    e.Tick? && e.o.coreRunning
  }

  /** Tick i tells that the core is dead, and event n comes at least eight seconds later. */
  predicate DeadLongBefore(events: seq<Event>, i: nat, n: nat) {
    && i < n < |events| && events[n].Tick? && Tells(events[i], false)
    && events[n].o.nowMs - events[i].o.nowMs >= CORE_GRACE_MS
  }

  /** What comes before a restart at event n: tick i of the same run saw the core dead at least eight seconds earlier,
      and no tick in between that could tell saw it up. */
  predicate DiesAt(events: seq<Event>, i: nat, n: nat) {
    DeadLongBefore(events, i, n) && RunsOn(events, i, n) && forall j :: i < j < n ==> !Tells(events[j], true)
  }

  predicate NoneSawUp(events: seq<Event>, i: nat, n: nat) {
    forall j :: i < j < n <= |events| ==> !SawUp(events[j])
  }

  /** The core is seen dead, eight seconds pass without any tick that sees it up, and then event n comes. */
  ghost predicate DiesForGood(events: seq<Event>, n: nat) {
    exists i :: DiesAt(events, i, n) && NoneSawUp(events, i, n)
  }

  /** Every tick after i that sees the core up is followed by one that tells that it is dead, long before event n. */
  predicate DiesAgain(events: seq<Event>, i: nat, n: nat) {
    forall u :: i < u < n <= |events| && SawUp(events[u]) ==> exists k :: u < k < n && DeadLongBefore(events, k, n)
  }

  /** A restart comes only after the core was seen dead at least eight seconds earlier in the same run, with no tick in
      between that could tell seeing it up. That no tick at all sees it up for eight seconds holds if and only if each
      that does, while a start is pending, is followed by one that sees the core dead again, eight seconds before. */
  lemma RestartFollowsDeath(events: seq<Event>, n: nat) returns (i: nat)
    requires Timed(events) && n < |events| && events[n].Tick?
    requires Stepped(Replay(events[..n]).s, events[n].o).1.RestartProfile?
    ensures DiesAt(events, i, n)
    ensures DiesForGood(events, n) <==> DiesAgain(events, i, n)
  {
    i := RestartFollowsADeath(events, n);
    if DiesForGood(events, n) {
      var last :| DiesAt(events, last, n) && NoneSawUp(events, last, n);
      forall u | i < u < n && SawUp(events[u])
        ensures exists k :: u < k < n && DeadLongBefore(events, k, n)
      {
        assert u < last && DeadLongBefore(events, last, n);
      }
    }
    if DiesAgain(events, i, n) {
      var last := LastLongDead(events, i, n);
      DiesAtLater(events, i, last, n);
    }
  }

  /** The last tick that tells that the core is dead, long before event n. */
  lemma LastLongDead(events: seq<Event>, i: nat, n: nat) returns (last: nat)
    requires DeadLongBefore(events, i, n)
    ensures i <= last && DeadLongBefore(events, last, n)
    ensures forall k :: last < k < n ==> !DeadLongBefore(events, k, n)
    decreases n - i
  {
    if k :| i < k < n && DeadLongBefore(events, k, n) {
      last := LastLongDead(events, k, n);
    } else {
      last := i;
    }
  }

  lemma DiesAtLater(events: seq<Event>, i: nat, later: nat, n: nat)
    requires DiesAt(events, i, n) && i <= later && DeadLongBefore(events, later, n)
    ensures DiesAt(events, later, n)
  {
  }

  lemma RestartFollowsADeath(events: seq<Event>, n: nat) returns (i: nat)
    requires Timed(events) && n < |events| && events[n].Tick?
    requires Stepped(Replay(events[..n]).s, events[n].o).1.RestartProfile?
    ensures DiesAt(events, i, n)
  {
    hide Record, Phases;
    var front := events[..n];
    HistoriesAreSafe(events, n);
    i := DeadFromMeans(front);
    assert forall j :: 0 <= j < n ==> events[j] == front[j] && events[..j] == front[..j];
    forall j | i <= j < n
      ensures !Begins(events, j)
    {
      assert Begins(events, j) ==> Begins(front, j) || j == i;
    }
    RanOn(events, i, n);
    forall j | i < j < n
      ensures !Tells(events[j], true)
    {
      assert Replay(events[..j]).s.active;
    }
  }

  /** While a start is pending the coordinator does not look at the core: it restarts the profile eight seconds after
      it first saw the core dead, although a step in between saw it up. */
  lemma PendingStartHidesTheCore()
    ensures var snap := Snapshot(5, Modes(false, false), false);
            var dead := Observation(0, Online, false, false, false, -1);
            var events := [Wake(Native, 0, snap), Tick(dead),
                           Tick(dead.(nowMs := 1000, startPending := true, coreRunning := true)),
                           Tick(dead.(nowMs := 8000))];
            Timed(events) && events[2].o.coreRunning && !DiesForGood(events, 3)
            && Stepped(Replay(events[..3]).s, events[3].o).1 == RestartProfile(POLL_MS, 5, false, CoreRestarting)
  {
    var snap := Snapshot(5, Modes(false, false), false);
    var dead := Observation(0, Online, false, false, false, -1);
    var up := dead.(nowMs := 1000, startPending := true, coreRunning := true);
    var events := [Wake(Native, 0, snap), Tick(dead), Tick(up), Tick(dead.(nowMs := 8000))];
    var h1 := Record(START, events[0]);
    var h2 := Record(h1, events[1]);
    var h3 := Record(h2, events[2]);
    assert events[..1][..0] == [] && events[..2][..1] == events[..1] && events[..3][..2] == events[..2];
    assert events[..4] == events && events[..|events| - 1] == events[..3];
    assert Replay(events[..1]) == h1 && Replay(events[..2]) == h2 && Replay(events[..3]) == h3;
    assert Timed(events[..1]) && Timed(events[..2]) && Timed(events[..3]);
  }

  // ----- every run ends

  /** Waits shorter than a poll that the run may still make: one for the network, one for the core, and the mode
      check, which asks to be called again at once. */
  function ShortWaits(s: State, now: int): nat {
    (if s.phase == Network && now - s.wakeAtMs < NO_REACHABILITY_DELAY_MS then 1 else 0)
    + (if s.phase.Rank() <= 1 && !(s.coreDeadSinceMs >= 0 && now - s.coreDeadSinceMs >= CORE_GRACE_MS) then 1 else 0)
    + (if s.phase.Rank() <= 2 then 1 else 0)
  }

  function TimeLeft(s: State, now: int): int {
    POLL_MS * ShortWaits(s, now) + RUN_MAX_MS - (now - s.wakeAtMs)
  }

  /** A driver's calls: each may follow a `dropRestore`. */
  datatype Call = Call(dropFirst: bool, o: Observation)

  function Before(s: State, c: Call): State {
    if c.dropFirst then Dropped(s) else s
  }

  /** All these calls ask for another one, and each comes no earlier than the one before it asked for. */
  predicate Continues(s: State, earliest: int, calls: seq<Call>)
    decreases |calls|
  {
    calls == [] ||
    var c := calls[0];
    var (t, st) := Stepped(Before(s, c), c.o);
    c.o.nowMs >= earliest && st.delayMs >= 0 && Continues(t, c.o.nowMs + st.delayMs, calls[1..])
  }

  predicate InRun(s: State, now: int) {
    s.active && now >= s.wakeAtMs >= 0 && s.coreDeadSinceMs <= now && (s.phase == Network ==> s.coreDeadSinceMs == -1)
  }

  /** A step at `now` that asks for another one, no earlier than `next`, uses up a poll interval of the time left. */
  predicate UsesTime(s: State, now: int, t: State, st: Step, next: int) {
    st.delayMs >= 0 && next >= now + st.delayMs ==>
      InRun(t, next) && t.wakeAtMs == s.wakeAtMs && TimeLeft(t, next) <= TimeLeft(s, now) - POLL_MS
  }

  lemma ModesUseTime(s: State, o: Observation, next: int)
    requires InRun(s, o.nowMs) && s.phase.Rank() >= 2
    ensures UsesTime(s, o.nowMs, Phases(s, o).0, Phases(s, o).1, next)
  {
  }

  lemma CoreUsesTime(s: State, o: Observation, next: int)
    requires InRun(s, o.nowMs) && s.phase == Core
    ensures UsesTime(s, o.nowMs, Phases(s, o).0, Phases(s, o).1, next)
  {
    ModesUseTime(s.(phase := ModesPhase), o, next);
    ModesUseTime(s.(phase := ModesPhase, coreDeadSinceMs := -1), o, next);
  }

  lemma PhasesUseTime(s: State, o: Observation, next: int)
    requires InRun(s, o.nowMs)
    ensures UsesTime(s, o.nowMs, Phases(s, o).0, Phases(s, o).1, next)
  {
    match s.phase
    case Network =>
      if FoundReady(o, o.nowMs - s.wakeAtMs) {
        CoreUsesTime(s.(networkReady := true, phase := Core), o, next);
      } else {
        CoreUsesTime(s.(networkReady := false, phase := Core), o, next);
      }
    case Core => CoreUsesTime(s, o, next);
    case _ => ModesUseTime(s, o, next);
  }

  lemma {:induction false} CallsUseTime(s: State, earliest: int, calls: seq<Call>)
    requires InRun(s, earliest) && calls != [] && Continues(s, earliest, calls)
    ensures POLL_MS * (|calls| - 1) < TimeLeft(s, earliest)
    decreases |calls|
  {
    var c := calls[0];
    var u := Before(s, c);
    var (t, st) := Stepped(u, c.o);
    hide Phases;
    PhasesUseTime(u, c.o, c.o.nowMs + st.delayMs);
    assert ShortWaits(u, c.o.nowMs) <= ShortWaits(s, earliest);
    if |calls| > 1 {
      CallsUseTime(t, c.o.nowMs + st.delayMs, calls[1..]);
    }
  }

  const MOST_CALLS := 183

  /** After an accepted wake a driver that waits as asked is asked to call again at most 183 times. */
  lemma RunsEnd(s: State, source: Source, nowMs: int, current: Snapshot, calls: seq<Call>)
    requires Accepts(s, nowMs) && nowMs >= 0
    requires Continues(Woken(s, source, nowMs, current), nowMs, calls)
    ensures |calls| <= MOST_CALLS
  {
    if calls != [] {
      CallsUseTime(Woken(s, source, nowMs, current), nowMs, calls);
    }
  }
}
