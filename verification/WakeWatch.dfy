/** What a wake run does, told without phases: which steps settle its three questions (is there a network, is the core
    up, are modes to be checked), and which actions that calls for. */
module WakeWatch {
  import opened Options
  import opened WakeCoordination
  import opened WakeRuns

  /** The observation that settled a question, and what the run was to bring back at that moment. */
  datatype Look = Look(o: Observation, before: Snapshot)

  /** A run as an onlooker sees it who hears all signals: whether it goes on, when it began, the snapshot of a sleep
      that no wake has used yet, what is to be brought back, since when the core is down, the observations that settled
      the three questions, and whether the run came to its own end. */
  datatype Watch = Watch(going: bool, wokenAt: int, slept: Option<Snapshot>, before: Snapshot, downSince: int,
                         network: Option<Observation>, core: Option<Look>, modes: Option<Look>, finished: bool)

  const UNWATCHED := Watch(false, -1, None, NO_SNAPSHOT, -1, None, None, None, false)

  /** The network is there, or has been waited for long enough. */
  predicate SettlesNetwork(o: Observation, elapsed: int) {
    match o.reachability
    case Online => true
    case Unknown => elapsed >= NO_REACHABILITY_DELAY_MS
    case Offline => elapsed >= NETWORK_WAIT_MAX_MS
  }

  predicate Down(o: Observation, before: Snapshot) {
    before.profileId >= 0 && !o.startPending && !o.coreRunning
  }

  /** No profile is to be brought back, or the core is up, or it has been down for the time of grace. */
  predicate SettlesCore(o: Observation, before: Snapshot, downSince: int) {
    || before.profileId < 0
    || (!o.startPending && o.coreRunning)
    || (Down(o, before) && o.nowMs - downSince >= CORE_GRACE_MS)
  }

  predicate SomeMode(before: Snapshot) {
    before.modes.systemProxy || before.modes.tun
  }

  predicate SettlesModes(o: Observation, before: Snapshot) {
    !SomeMode(before) || !o.startPending
  }

  predicate Restarts(core: Option<Look>) {
    core.Some? && core.value.before.profileId >= 0 && !core.value.o.coreRunning
  }

  predicate Checks(modes: Option<Look>) {
    modes.Some? && SomeMode(modes.value.before) && modes.value.o.runningProfileId >= 0
  }

  /** A step that goes ahead: questions are settled in turn, but not beyond one whose answer is an action. */
  function Looked(w: Watch, o: Observation): Watch {
    var network := if w.network.None? && SettlesNetwork(o, o.nowMs - w.wokenAt) then Some(o) else w.network;
    var asksCore := network.Some? && w.core.None?;
    var down := if asksCore && Down(o, w.before) && w.downSince < 0 then o.nowMs else w.downSince;
    var core := if asksCore && SettlesCore(o, w.before, down) then Some(Look(o, w.before)) else w.core;
    var asksModes := core.Some? && w.modes.None? && !(asksCore && Restarts(core));
    var modes := if asksModes && SettlesModes(o, w.before) then Some(Look(o, w.before)) else w.modes;
    var ends := modes.Some? && !(asksModes && Checks(modes));
    w.(network := network, downSince := down, core := core, modes := modes, going := !ends, finished := ends)
  }

  function Heard(w: Watch, e: Event): Watch {
    match e
    case Sleep(before) => w.(going := false, slept := Some(before))
    case Wake(_, nowMs, current) =>
      if w.going || (w.slept.None? && w.wokenAt >= 0 && nowMs - w.wokenAt < DEDUPE_MS) then w
      else UNWATCHED.(going := true, wokenAt := nowMs, before := if w.slept.Some? then w.slept.value else current)
    case Tick(o) =>
      if !w.going then w
      else if o.blocked || o.nowMs - w.wokenAt >= RUN_MAX_MS then w.(going := false)
      else Looked(w, o)
    case Drop => w.(before := NO_SNAPSHOT)
    case Cancel => w.(going := false)
  }

  function Watched(events: seq<Event>): Watch {
    if events == [] then UNWATCHED else Heard(Watched(events[..|events| - 1]), events[|events| - 1])
  }

  /** What these answers call for: a restart when the core was found down, a check of the modes when some were on and a
      profile ran, and at the end an update of the subscriptions when the network was found. */
  function CalledFor(w: Watch): seq<Step> {
    (if Restarts(w.core)
     then [RestartProfile(POLL_MS, w.core.value.before.profileId, w.core.value.before.viaSsidTrigger, CoreRestarting)]
     else [])
    + (if Checks(w.modes) then [CheckModes(0, w.modes.value.before.modes)] else [])
    + (if w.finished && FoundNetwork(w) then [UpdateSubscriptions(-1)] else [])
  }

  predicate FoundNetwork(w: Watch) {
    w.network.Some? && w.network.value.reachability != Offline
  }

  /** The phase of a run that goes on: the first question that is not settled. */
  function PhaseOf(w: Watch): Phase {
    if w.network.None? then Network else if w.core.None? then Core else if w.modes.None? then ModesPhase else Subs
  }

  predicate Agrees(s: State, w: Watch) {
    && (s.active <==> w.going)
    && s.lastWakeMs == w.wokenAt
    && s.hasSleepSnapshot == w.slept.Some? && (w.slept.Some? ==> s.sleepSnapshot == w.slept.value)
    && s.snapshot == w.before
    && (w.going ==>
          && !w.finished && s.wakeAtMs == w.wokenAt && s.phase == PhaseOf(w)
          && (w.core.Some? ==> w.network.Some?) && (w.modes.Some? ==> w.core.Some?)
          && (w.network.Some? ==> s.networkReady == FoundNetwork(w))
          && (w.core.None? ==> s.coreDeadSinceMs == w.downSince))
    && (w.finished ==> w.network.Some? && w.core.Some? && w.modes.Some?)
  }

  /** The answer of a step that goes ahead. */
  predicate Answers(w: Watch, v: Watch, st: Step) {
    if v.core.Some? && w.core.None? && Restarts(v.core)
    then st == RestartProfile(POLL_MS, w.before.profileId, w.before.viaSsidTrigger, CoreRestarting)
    else if v.modes.Some? && w.modes.None? && Checks(v.modes) then st == CheckModes(0, w.before.modes)
    else if v.finished then st == if FoundNetwork(v) then UpdateSubscriptions(-1) else Finished(-1, NetworkTimedOut)
    else st.Wait? && 0 < st.delayMs <= NO_REACHABILITY_DELAY_MS
  }

  predicate StepFits(s: State, w: Watch, o: Observation) {
    Agrees(Phases(s, o).0, Looked(w, o)) && Answers(w, Looked(w, o), Phases(s, o).1)
  }

  lemma ModesFit(s: State, w: Watch, o: Observation)
    requires Agrees(s, w) && w.going && w.core.Some?
    ensures StepFits(s, w, o)
  {
  }

  lemma CoreFits(s: State, w: Watch, o: Observation)
    requires Agrees(s, w) && w.going && w.network.Some? && w.core.None? && o.nowMs >= w.wokenAt >= 0
    ensures StepFits(s, w, o)
  {
    var t, v := s.(phase := ModesPhase), w.(core := Some(Look(o, w.before)));
    if w.before.profileId < 0 {
      ModesFit(t, v, o);
      assert Looked(w, o) == Looked(v, o);
      assert Phases(s, o) == Phases(t, o);
    } else if !o.startPending && o.coreRunning {
      ModesFit(t.(coreDeadSinceMs := -1), v, o);
      assert Looked(w, o) == Looked(v, o);
      assert Phases(s, o) == Phases(t.(coreDeadSinceMs := -1), o);
    } else {
      hide FoundNetwork;
    }
  }

  lemma StepAgrees(s: State, w: Watch, o: Observation)
    requires Agrees(s, w) && w.going && o.nowMs >= w.wokenAt >= 0
    ensures StepFits(s, w, o)
  {
    if w.network.None? {
      if SettlesNetwork(o, o.nowMs - w.wokenAt) {
        var ready := o.reachability != Offline;
        var t, v := s.(networkReady := ready, phase := Core), w.(network := Some(o));
        CoreFits(t, v, o);
        assert Looked(w, o) == Looked(v, o);
        hide *;
        NetworkPassed(s, o);
      }
    } else if w.core.None? {
      CoreFits(s, w, o);
    } else {
      ModesFit(s, w, o);
    }
  }

  lemma NetworkPassed(s: State, o: Observation)
    requires s.phase == Network && SettlesNetwork(o, o.nowMs - s.wakeAtMs)
    ensures Phases(s, o) == Phases(s.(networkReady := o.reachability != Offline, phase := Core), o)
  {
  }

  // ----- whole histories

  ghost predicate Follows(h: History, w: Watch) {
    && Agrees(h.s, w) && h.acts == CalledFor(w)
    && -1 <= w.wokenAt <= h.clock && (w.going ==> w.wokenAt >= 0)
  }

  lemma TickFollows(h: History, w: Watch, o: Observation)
    requires Follows(h, w) && w.going && o.nowMs >= h.clock && !o.blocked && o.nowMs - w.wokenAt < RUN_MAX_MS
    ensures Follows(Record(h, Tick(o)), Looked(w, o))
  {
    StepAgrees(h.s, w, o);
    hide Phases;
    var (t, st) := Phases(h.s, o);
    assert Stepped(h.s, o) == (t, st);
    hide Looked, Agrees, Stepped, CalledFor, FoundReady;
    ActionAdded(w, o, st);
    LookedKeepsTheRest(w, o);
  }

  lemma LookedKeepsTheRest(w: Watch, o: Observation)
    ensures Looked(w, o).wokenAt == w.wokenAt
  {
  }

  /** What a step adds to the actions called for is what it answers. */
  lemma ActionAdded(w: Watch, o: Observation, st: Step)
    requires w.going && !w.finished && (w.modes.Some? ==> w.core.Some?) && (w.core.Some? ==> w.network.Some?)
    requires Answers(w, Looked(w, o), st)
    ensures CalledFor(Looked(w, o)) == if Rank(st) > 0 then CalledFor(w) + [st] else CalledFor(w)
  {
  }

  lemma EventFollows(h: History, w: Watch, e: Event)
    requires Follows(h, w) && h.clock >= 0 && InTime(h.clock, e)
    ensures Follows(Record(h, e), Heard(w, e))
  {
    if e.Tick? && w.going && !e.o.blocked && e.o.nowMs - w.wokenAt < RUN_MAX_MS {
      TickFollows(h, w, e.o);
    } else {
      hide Phases, Looked;
    }
  }

  lemma {:induction false} HistoryFollows(events: seq<Event>)
    requires Timed(events)
    ensures Follows(Replay(events), Watched(events)) && Replay(events).clock >= 0
  {
    if events != [] {
      hide Follows, Record, Heard;
      HistoryFollows(events[..|events| - 1]);
      EventFollows(Replay(events[..|events| - 1]), Watched(events[..|events| - 1]), events[|events| - 1]);
      HistoriesAreConsistent(events);
    }
  }

  /** In every history the actions of the last run are exactly those called for, and a run that comes to its own end
      has settled all three questions. */
  lemma EveryActionComes(events: seq<Event>)
    requires Timed(events)
    ensures Replay(events).acts == CalledFor(Watched(events))
    ensures Replay(events).s.active <==> Watched(events).going
    ensures var w := Watched(events); w.finished ==> !w.going && w.network.Some? && w.core.Some? && w.modes.Some?
  {
    HistoryFollows(events);
  }

  /** What a run that came to its own end has done: subscriptions were updated if and only if the network was found;
      the modes were checked if and only if some were on and a profile ran when that question was settled; the profile
      was restarted if and only if there was one and the core was down when that question was settled. */
  lemma WhatARunDid(events: seq<Event>, modes: Modes, id: int, via: bool)
    requires Timed(events) && Watched(events).finished
    ensures var w := Watched(events); w.network.Some? && w.core.Some? && w.modes.Some?
    ensures var w, acts := Watched(events), Replay(events).acts;
            && (UpdateSubscriptions(-1) in acts <==> w.network.value.reachability != Offline)
            && (CheckModes(0, modes) in acts <==>
                  modes == w.modes.value.before.modes && (modes.systemProxy || modes.tun)
                  && w.modes.value.o.runningProfileId >= 0)
            && (RestartProfile(POLL_MS, id, via, CoreRestarting) in acts <==>
                  id == w.core.value.before.profileId && via == w.core.value.before.viaSsidTrigger
                  && id >= 0 && !w.core.value.o.coreRunning)
  {
    EveryActionComes(events);
  }

  /** What the machine answers to the next step. */
  predicate AnswersNext(w: Watch, o: Observation, st: Step) {
    if !w.going then st == Finished(-1, NoNote)
    else if o.blocked then st == Finished(-1, Blocked)
    else if o.nowMs - w.wokenAt >= RUN_MAX_MS then st == Finished(-1, RunTimedOut)
    else Answers(w, Looked(w, o), st)
  }

  lemma EveryAnswerFits(events: seq<Event>, o: Observation)
    requires Timed(events) && InTime(Replay(events).clock, Tick(o))
    ensures AnswersNext(Watched(events), o, Stepped(Replay(events).s, o).1)
  {
    HistoryFollows(events);
    var h, w := Replay(events), Watched(events);
    if w.going && !o.blocked && o.nowMs - w.wokenAt < RUN_MAX_MS {
      StepAgrees(h.s, w, o);
    }
  }
}
