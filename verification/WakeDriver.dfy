/** The window glue that drives the two machines from its timers. A timer that is armed is given by the time it is
    due; `-1` stands for one that is stopped. */
module WakeDriver {
  import C = WakeCoordination
  import W = WakeRuns
  import R = WakeRetry

  datatype Driver = Driver(coord: C.State, subs: R.State, wakeDue: int, subsDue: int)

  const STOPPED := -1
  const INITIAL := Driver(C.INITIAL, R.IDLE, STOPPED, STOPPED)

  function Cancelled(s: R.State): R.State {
    s.(active := false)
  }

  function OnSleep(d: Driver, before: C.Snapshot): Driver {
    Driver(C.Slept(d.coord, before), Cancelled(d.subs), STOPPED, STOPPED)
  }

  function OnWake(d: Driver, exiting: bool, source: C.Source, nowMs: int, current: C.Snapshot): Driver {
    if exiting || !C.Accepts(d.coord, nowMs) then d
    else Driver(C.Woken(d.coord, source, nowMs, current), Cancelled(d.subs), nowMs, STOPPED)
  }

  function OnDrop(d: Driver): Driver {
    d.(coord := C.Dropped(d.coord))
  }

  /** The subscription timer has fired, or a run has just handed over. */
  function OnSubsStep(d: Driver, i: R.Inputs): Driver {
    var (s, st) := R.Stepped(d.subs, i);
    d.(subs := s,
       subsDue := if st.action == R.Wait || st.action == R.StartUpdate then i.nowMs + st.delayMs else STOPPED)
  }

  /** The wake timer has fired. */
  function OnRunStep(d: Driver, o: C.Observation, i: R.Inputs): Driver {
    var (s, st) := C.Stepped(d.coord, o);
    var e := d.(coord := s, wakeDue := STOPPED);
    match st
    case Wait(delayMs) => e.(wakeDue := o.nowMs + delayMs)
    case RestartProfile(delayMs, _, _, _) => if delayMs >= 0 then e.(wakeDue := o.nowMs + delayMs) else e
    case CheckModes(delayMs, _) => if delayMs >= 0 then e.(wakeDue := o.nowMs + delayMs) else e
    case UpdateSubscriptions(_) => OnSubsStep(e.(subs := R.Begun(o.nowMs)), i)
    case Finished(_, _) => e
  }

  class MainWindow {
    const coord: C.WakeCoordinator
    const subs: R.WakeSubscriptionRetry
    var wakeDue: int
    var subsDue: int

    ghost predicate Valid()
      reads subs
    {
      R.Valid(subs.Value())
    }

    ghost function Value(): Driver
      reads this, coord, subs
    {
      Driver(coord.Value(), subs.Value(), wakeDue, subsDue)
    }

    constructor ()
      ensures Valid() && Value() == INITIAL && fresh(coord) && fresh(subs)
    {
      coord := new C.WakeCoordinator();
      subs := new R.WakeSubscriptionRetry();
      wakeDue, subsDue := STOPPED, STOPPED;
    }

    method WakeOnSleep(before: C.Snapshot)
      requires Valid()
      modifies this, coord, subs
      ensures Valid() && Value() == OnSleep(old(Value()), before)
    {
      wakeDue := STOPPED;
      subsDue := STOPPED;
      subs.Cancel();
      coord.NoteSleep(before);
    }

    method WakeDetected(prepareExit: bool, source: C.Source, nowMs: int, current: C.Snapshot)
      requires Valid()
      modifies this, coord, subs
      ensures Valid() && Value() == OnWake(old(Value()), prepareExit, source, nowMs, current)
    {
      if prepareExit {
        return;
      }
      var accepted := coord.NoteWake(source, nowMs, current);
      if !accepted {
        return;
      }
      subsDue := STOPPED;
      subs.Cancel();
      wakeDue := nowMs + 0;
    }

    method WakeRunStep(o: C.Observation, i: R.Inputs)
      requires Valid()
      modifies this, coord, subs
      ensures Valid() && Value() == OnRunStep(old(Value()), o, i)
    {
      var s := coord.Step(o);
      wakeDue := STOPPED;
      match s
      case Wait(delayMs) =>
        wakeDue := o.nowMs + delayMs;
      case RestartProfile(delayMs, _, _, _) =>
        if delayMs >= 0 {
          wakeDue := o.nowMs + delayMs;
        }
      case CheckModes(delayMs, _) =>
        if delayMs >= 0 {
          wakeDue := o.nowMs + delayMs;
        }
      case UpdateSubscriptions(_) =>
        subs.Begin(o.nowMs);
        WakeSubsStep(i);
      case Finished(_, _) =>
    }

    method WakeSubsStep(i: R.Inputs)
      requires Valid()
      modifies this, subs
      ensures Valid() && Value() == OnSubsStep(old(Value()), i)
    {
      var s := subs.Step(i);
      subsDue := STOPPED;
      match s.action
      case Wait => subsDue := i.nowMs + s.delayMs;
      case StartUpdate => subsDue := i.nowMs + s.delayMs;
      case Done =>
      case GaveUp =>
    }
  }

  // ----- every interleaving of signals and timers

  datatype Event =
    | Sleep(before: C.Snapshot)
    | Wake(exiting: bool, source: C.Source, nowMs: int, current: C.Snapshot)
    | Drop
    | WakeTimer(o: C.Observation, i: R.Inputs)
    | SubsTimer(i: R.Inputs)

  /** Clock readings are not negative, and a timer fires only when armed and not before it is due. */
  predicate Enabled(d: Driver, e: Event) {
    match e
    case WakeTimer(o, i) => d.wakeDue != STOPPED && o.nowMs >= d.wakeDue && i.nowMs >= 0
    case SubsTimer(i) => d.subsDue != STOPPED && i.nowMs >= d.subsDue
    case Wake(_, _, nowMs, _) => nowMs >= 0
    case _ => true
  }

  function Handle(d: Driver, e: Event): Driver {
    match e
    case Sleep(before) => OnSleep(d, before)
    case Wake(exiting, source, nowMs, current) => OnWake(d, exiting, source, nowMs, current)
    case Drop => OnDrop(d)
    case WakeTimer(o, i) => OnRunStep(d, o, i)
    case SubsTimer(i) => OnSubsStep(d, i)
  }

  function Replay(events: seq<Event>): Driver {
    if events == [] then INITIAL else Handle(Replay(events[..|events| - 1]), events[|events| - 1])
  }

  predicate AllEnabled(events: seq<Event>) {
    events == [] ||
    (AllEnabled(events[..|events| - 1]) && Enabled(Replay(events[..|events| - 1]), events[|events| - 1]))
  }

  /** A machine waits for its timer exactly while it is active, and the two are never active together. */
  predicate Coupled(d: Driver) {
    && R.Valid(d.subs)
    && d.wakeDue >= STOPPED && d.subsDue >= STOPPED
    && (d.coord.active <==> d.wakeDue != STOPPED)
    && (d.subs.active <==> d.subsDue != STOPPED)
    && !(d.coord.active && d.subs.active)
  }

  lemma {:induction false} PhasesAnswer(s: C.State, o: C.Observation)
    requires s.active
    ensures var (t, st) := C.Phases(s, o);
            (t.active <==> st.delayMs >= 0) && (st.Finished? || st.UpdateSubscriptions? <==> !t.active)
    decreases 3 - s.phase.Rank()
  {
    match s.phase
    case Network =>
      PhasesAnswer(s.(networkReady := true, phase := C.Core), o);
      PhasesAnswer(s.(networkReady := false, phase := C.Core), o);
    case Core =>
      PhasesAnswer(s.(phase := C.ModesPhase), o);
      PhasesAnswer(s.(coreDeadSinceMs := -1, phase := C.ModesPhase), o);
    case ModesPhase =>
      PhasesAnswer(s.(phase := C.Subs), o);
    case Subs =>
  }

  /** A run goes on exactly when the step asks for another call. */
  lemma StepAnswers(s: C.State, o: C.Observation)
    ensures var (t, st) := C.Stepped(s, o);
            (t.active <==> st.delayMs >= 0) && (st.Finished? || st.UpdateSubscriptions? <==> !t.active)
  {
    if s.active {
      PhasesAnswer(s, o);
    }
  }

  lemma SubsStepKeepsCoupling(d: Driver, i: R.Inputs)
    requires R.Valid(d.subs) && d.wakeDue >= STOPPED && i.nowMs >= 0
    requires (d.coord.active <==> d.wakeDue != STOPPED) && !(d.coord.active && d.subs.active)
    ensures Coupled(OnSubsStep(d, i))
  {
  }

  lemma HandlingKeepsCoupling(d: Driver, e: Event)
    requires Coupled(d) && Enabled(d, e)
    ensures Coupled(Handle(d, e))
  {
    match e
    case SubsTimer(i) =>
      hide R.Stepped;
      SubsStepKeepsCoupling(d, i);
    case WakeTimer(o, i) =>
      hide C.Stepped, OnSubsStep;
      StepAnswers(d.coord, o);
      var (s, st) := C.Stepped(d.coord, o);
      if st.UpdateSubscriptions? {
        SubsStepKeepsCoupling(d.(coord := s, wakeDue := STOPPED, subs := R.Begun(o.nowMs)), i);
      }
    case _ =>
  }

  lemma {:induction false} TimersMatchMachines(events: seq<Event>)
    requires AllEnabled(events)
    ensures Coupled(Replay(events))
  {
    if events != [] {
      hide Handle, Enabled, Coupled;
      TimersMatchMachines(events[..|events| - 1]);
      HandlingKeepsCoupling(Replay(events[..|events| - 1]), events[|events| - 1]);
    } else {
      assert Coupled(INITIAL);
    }
  }

  /** When the wake timer fires, its next time is the delay that the run asks for, from now; the retry begins, and takes
      its first step at once, exactly when the run asks for an update; and otherwise the retry is left alone. */
  lemma RunStepEffects(d: Driver, o: C.Observation, i: R.Inputs)
    requires Coupled(d) && Enabled(d, WakeTimer(o, i))
    ensures var st, e := C.Stepped(d.coord, o).1, Handle(d, WakeTimer(o, i));
            && e.wakeDue == (if e.coord.active then o.nowMs + st.delayMs else STOPPED)
            && (if st == C.UpdateSubscriptions(-1)
                then var (t, answer) := R.Stepped(R.Begun(o.nowMs), i);
                     e.subs == t && e.subsDue == (if t.active then i.nowMs + answer.delayMs else STOPPED)
                else e.subs == d.subs && e.subsDue == d.subsDue)
  {
    hide C.Stepped, R.Stepped;
    StepAnswers(d.coord, o);
    UpdatesEndRuns(d.coord, o);
    RetryAnswers(R.Begun(o.nowMs), i);
  }

  lemma {:induction false} UpdatesEndPhases(s: C.State, o: C.Observation)
    ensures C.Phases(s, o).1.UpdateSubscriptions? ==> C.Phases(s, o).1 == C.UpdateSubscriptions(-1)
    decreases 3 - s.phase.Rank()
  {
    match s.phase
    case Network =>
      UpdatesEndPhases(s.(networkReady := true, phase := C.Core), o);
      UpdatesEndPhases(s.(networkReady := false, phase := C.Core), o);
    case Core =>
      UpdatesEndPhases(s.(phase := C.ModesPhase), o);
      UpdatesEndPhases(s.(coreDeadSinceMs := -1, phase := C.ModesPhase), o);
    case ModesPhase =>
      UpdatesEndPhases(s.(phase := C.Subs), o);
    case Subs =>
  }

  lemma UpdatesEndRuns(s: C.State, o: C.Observation)
    ensures C.Stepped(s, o).1.UpdateSubscriptions? ==> C.Stepped(s, o).1 == C.UpdateSubscriptions(-1)
  {
    UpdatesEndPhases(s, o);
  }

  lemma RetryAnswers(s: R.State, i: R.Inputs)
    requires R.Valid(s)
    ensures R.Stepped(s, i).0.active <==> R.Stepped(s, i).1.action in {R.Wait, R.StartUpdate}
  {
  }

  /** Signals stop what they should: a sleep ends run and retry, a wake that is taken up ends a retry and starts a run
      at once, and a wake while the program exits is ignored. */
  lemma SignalEffects(d: Driver, before: C.Snapshot, exiting: bool, source: C.Source, nowMs: int, current: C.Snapshot)
    requires Coupled(d) && nowMs >= 0
    ensures var e := Handle(d, Sleep(before));
            !e.coord.active && !e.subs.active && e.wakeDue == STOPPED == e.subsDue
    ensures var e := Handle(d, Wake(exiting, source, nowMs, current));
            if exiting || !C.Accepts(d.coord, nowMs) then e == d
            else e.coord.active && !e.subs.active && e.wakeDue == nowMs && e.subsDue == STOPPED
  {
  }

  // ----- the driver waits as asked

  /** The wake timer fires once for each call, and after each the run goes on. */
  predicate Fires(d: Driver, calls: seq<W.Call>, i: R.Inputs)
    decreases |calls|
  {
    calls == [] ||
    var before := if calls[0].dropFirst then OnDrop(d) else d;
    var after := OnRunStep(before, calls[0].o, i);
    d.wakeDue != STOPPED && calls[0].o.nowMs >= d.wakeDue && after.coord.active && Fires(after, calls[1..], i)
  }

  lemma {:induction false} FiringWaitsAsAsked(d: Driver, calls: seq<W.Call>, i: R.Inputs)
    requires d.coord.active && Fires(d, calls, i)
    ensures W.Continues(d.coord, d.wakeDue, calls)
    decreases |calls|
  {
    if calls != [] {
      hide C.Stepped, OnSubsStep;
      var before := if calls[0].dropFirst then OnDrop(d) else d;
      StepAnswers(before.coord, calls[0].o);
      FiringWaitsAsAsked(OnRunStep(before, calls[0].o, i), calls[1..], i);
    }
  }

  /** However late its timer fires, the window steps an accepted run at most 184 times: 183 that go on and the last. */
  lemma WindowRunsEnd(d: Driver, source: C.Source, nowMs: int, current: C.Snapshot, calls: seq<W.Call>, i: R.Inputs)
    requires C.Accepts(d.coord, nowMs) && nowMs >= 0
    requires Fires(OnWake(d, false, source, nowMs, current), calls, i)
    ensures |calls| <= W.MOST_CALLS
  {
    FiringWaitsAsAsked(OnWake(d, false, source, nowMs, current), calls, i);
    W.RunsEnd(d.coord, source, nowMs, current, calls);
  }
}
