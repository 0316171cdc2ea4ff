/** What to do after the system woke from sleep: a step machine with an injected clock. Times are milliseconds
    since the epoch; -1 stands for "never". */
module WakeCoordination {
  import opened Orders

  const DEDUPE_MS := 120000
  const NETWORK_WAIT_MAX_MS := 60000
  const NO_REACHABILITY_DELAY_MS := 2000
  const CORE_GRACE_MS := 8000
  const RUN_MAX_MS := 180000
  const POLL_MS := 1000

  datatype Source = Native | TimerGap
  datatype Reachability = Unknown | Online | Offline
  datatype Modes = Modes(systemProxy: bool, tun: bool)
  datatype Snapshot = Snapshot(profileId: int, modes: Modes, viaSsidTrigger: bool)
  datatype Observation = Observation(nowMs: int, reachability: Reachability, blocked: bool, startPending: bool,
                                     coreRunning: bool, runningProfileId: int)

  datatype Note = NoNote | Blocked | NetworkTimedOut | RunTimedOut | CoreRestarting
  datatype Step =
    | Wait(delayMs: int)
    | RestartProfile(delayMs: int, profileId: int, viaSsidTrigger: bool, note: Note)
    | CheckModes(delayMs: int, modes: Modes)
    | UpdateSubscriptions(delayMs: int)
    | Finished(delayMs: int, note: Note)

  datatype Phase = Network | Core | ModesPhase | Subs {
    function Rank(): nat {
      match this case Network => 0 case Core => 1 case ModesPhase => 2 case Subs => 3
    }
  }

  datatype State = State(active: bool, phase: Phase, wakeAtMs: int, lastWakeMs: int, hasSleepSnapshot: bool,
                         sleepSnapshot: Snapshot, snapshot: Snapshot, coreDeadSinceMs: int, networkReady: bool,
                         source: Source)

  const NO_SNAPSHOT := Snapshot(-1, Modes(false, false), false)
  const INITIAL := State(false, Network, 0, -1, false, NO_SNAPSHOT, NO_SNAPSHOT, -1, false, Native)

  function WaitStep(ms: int): Step {
    Wait(if ms > 0 then ms else 0)
  }

  // ----- what each operation does to the state

  function Slept(s: State, before: Snapshot): State {
    s.(active := false, sleepSnapshot := before, hasSleepSnapshot := true)
  }

  predicate Accepts(s: State, nowMs: int) {
    !s.active && (s.hasSleepSnapshot || s.lastWakeMs < 0 || nowMs - s.lastWakeMs >= DEDUPE_MS)
  }

  function Woken(s: State, source: Source, nowMs: int, current: Snapshot): State {
    if !Accepts(s, nowMs) then s
    else s.(snapshot := if s.hasSleepSnapshot then s.sleepSnapshot else current, hasSleepSnapshot := false,
            lastWakeMs := nowMs, wakeAtMs := nowMs, source := source, phase := Network, coreDeadSinceMs := -1,
            networkReady := false, active := true)
  }

  function Dropped(s: State): State {
    s.(snapshot := NO_SNAPSHOT)
  }

  function Cancelled(s: State): State {
    s.(active := false)
  }

  /** The phases from the current one on, for an observation that neither blocks nor times out. */
  function Phases(s: State, o: Observation): (State, Step)
    decreases 3 - s.phase.Rank()
  {
    var elapsed := o.nowMs - s.wakeAtMs;
    match s.phase
    case Network =>
      if o.reachability == Online then Phases(s.(networkReady := true, phase := Core), o)
      else if o.reachability == Unknown then
        if elapsed < NO_REACHABILITY_DELAY_MS then (s, WaitStep(NO_REACHABILITY_DELAY_MS - elapsed))
        else Phases(s.(networkReady := true, phase := Core), o)
      else if elapsed < NETWORK_WAIT_MAX_MS then (s, WaitStep(POLL_MS))
      else Phases(s.(networkReady := false, phase := Core), o)
    case Core =>
      if s.snapshot.profileId < 0 then Phases(s.(phase := ModesPhase), o)
      else if o.startPending then (s, WaitStep(POLL_MS))
      else if o.coreRunning then Phases(s.(coreDeadSinceMs := -1, phase := ModesPhase), o)
      else
        var dead := if s.coreDeadSinceMs < 0 then o.nowMs else s.coreDeadSinceMs;
        var remaining := CORE_GRACE_MS - (o.nowMs - dead);
        if remaining > 0 then (s.(coreDeadSinceMs := dead), WaitStep(Min(remaining, POLL_MS)))
        else (s.(coreDeadSinceMs := dead, phase := ModesPhase),
              RestartProfile(POLL_MS, s.snapshot.profileId, s.snapshot.viaSsidTrigger, CoreRestarting))
    case ModesPhase =>
      if !(s.snapshot.modes.systemProxy || s.snapshot.modes.tun) then Phases(s.(phase := Subs), o)
      else if o.startPending then (s, WaitStep(POLL_MS))
      else if o.runningProfileId >= 0 then (s.(phase := Subs), CheckModes(0, s.snapshot.modes))
      else Phases(s.(phase := Subs), o)
    case Subs =>
      (s.(active := false), if s.networkReady then UpdateSubscriptions(-1) else Finished(-1, NetworkTimedOut))
  }

  function Stepped(s: State, o: Observation): (State, Step) {
    if !s.active then (s, Finished(-1, NoNote))
    else if o.blocked then (s.(active := false), Finished(-1, Blocked))
    else if o.nowMs - s.wakeAtMs >= RUN_MAX_MS then (s.(active := false), Finished(-1, RunTimedOut))
    else Phases(s, o)
  }

  class WakeCoordinator {
    var active: bool
    var phase: Phase
    var wakeAtMs: int
    var lastWakeMs: int
    var hasSleepSnapshot: bool
    var sleepSnapshot: Snapshot
    var snapshot: Snapshot
    var coreDeadSinceMs: int
    var networkReady: bool
    var source: Source

    ghost function Value(): State
      reads this
    {
      State(active, phase, wakeAtMs, lastWakeMs, hasSleepSnapshot, sleepSnapshot, snapshot, coreDeadSinceMs,
            networkReady, source)
    }

    constructor ()
      ensures Value() == INITIAL
    {
      active, phase, wakeAtMs, lastWakeMs := false, Network, 0, -1;
      hasSleepSnapshot, sleepSnapshot, snapshot := false, NO_SNAPSHOT, NO_SNAPSHOT;
      coreDeadSinceMs, networkReady, source := -1, false, Native;
    }

    method NoteSleep(before: Snapshot)
      modifies this
      ensures Value() == Slept(old(Value()), before)
    {
      active := false;
      sleepSnapshot := before;
      hasSleepSnapshot := true;
    }

    method NoteWake(from: Source, nowMs: int, current: Snapshot) returns (accepted: bool)
      modifies this
      ensures accepted == Accepts(old(Value()), nowMs)
      ensures Value() == Woken(old(Value()), from, nowMs, current)
    {
      if active {
        return false;
      }
      if !hasSleepSnapshot && lastWakeMs >= 0 && nowMs - lastWakeMs < DEDUPE_MS {
        return false;
      }
      snapshot := if hasSleepSnapshot then sleepSnapshot else current;
      hasSleepSnapshot := false;
      lastWakeMs, wakeAtMs := nowMs, nowMs;
      source := from;
      phase := Network;
      coreDeadSinceMs := -1;
      networkReady := false;
      active := true;
      accepted := true;
    }

    method DropRestore()
      modifies this
      ensures Value() == Dropped(old(Value()))
    {
      snapshot := NO_SNAPSHOT;
    }

    method Cancel()
      modifies this
      ensures Value() == Cancelled(old(Value()))
    {
      active := false;
    }

    method Step(o: Observation) returns (s: Step)
      modifies this
      ensures (Value(), s) == Stepped(old(Value()), o)
    {
      if !active {
        return Finished(-1, NoNote);
      }
      if o.blocked {
        active := false;
        return Finished(-1, Blocked);
      }
      if o.nowMs - wakeAtMs >= RUN_MAX_MS {
        active := false;
        return Finished(-1, RunTimedOut);
      }
      var elapsed := o.nowMs - wakeAtMs;
      while true
        invariant active && elapsed == o.nowMs - wakeAtMs
        invariant Phases(Value(), o) == Phases(old(Value()), o)
        decreases 3 - phase.Rank()
      {
        match phase
        case Network =>
          if o.reachability == Online {
            networkReady := true;
            phase := Core;
          } else if o.reachability == Unknown {
            if elapsed < NO_REACHABILITY_DELAY_MS {
              return WaitStep(NO_REACHABILITY_DELAY_MS - elapsed);
            }
            networkReady := true;
            phase := Core;
          } else {
            if elapsed < NETWORK_WAIT_MAX_MS {
              return WaitStep(POLL_MS);
            }
            networkReady := false;
            phase := Core;
          }
        case Core =>
          if snapshot.profileId < 0 {
            phase := ModesPhase;
          } else if o.startPending {
            return WaitStep(POLL_MS);
          } else if o.coreRunning {
            coreDeadSinceMs := -1;
            phase := ModesPhase;
          } else {
            if coreDeadSinceMs < 0 {
              coreDeadSinceMs := o.nowMs;
            }
            var remaining := CORE_GRACE_MS - (o.nowMs - coreDeadSinceMs);
            if remaining > 0 {
              return WaitStep(Min(remaining, POLL_MS));
            }
            phase := ModesPhase;
            return RestartProfile(POLL_MS, snapshot.profileId, snapshot.viaSsidTrigger, CoreRestarting);
          }
        case ModesPhase =>
          if !(snapshot.modes.systemProxy || snapshot.modes.tun) {
            phase := Subs;
          } else if o.startPending {
            return WaitStep(POLL_MS);
          } else {
            phase := Subs;
            if o.runningProfileId >= 0 {
              return CheckModes(0, snapshot.modes);
            }
          }
        case Subs =>
          active := false;
          if networkReady {
            return UpdateSubscriptions(-1);
          }
          return Finished(-1, NetworkTimedOut);
      }
    }
  }
}
