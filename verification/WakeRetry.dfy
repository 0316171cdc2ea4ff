/** The bounded retry of subscription updates after a wake, and what holds over all of its runs. */
module WakeRetry {

  const RETRY_DELAYS_MS: seq<int> := [3000, 10000, 30000, 60000]
  const MAX_ATTEMPTS := 5
  const POLL_MS := 1000
  const MAX_MS := 600000

  datatype Inputs = Inputs(nowMs: int, blocked: bool, scheduled: bool, startPending: bool, updateRunning: bool,
                           anyDue: bool)
  datatype Action = Wait | StartUpdate | Done | GaveUp
  datatype RetryStep = RetryStep(action: Action, delayMs: int, attempt: int)

  datatype State = State(active: bool, inFlight: bool, attempts: nat, beganMs: int, nextAtMs: int)

  const IDLE := State(false, false, 0, 0, 0)

  /** An attempt in flight was counted, and a retry that still runs has an attempt left. */
  predicate Valid(s: State) {
    && s.attempts <= MAX_ATTEMPTS
    && (s.inFlight ==> s.attempts >= 1)
    && (s.active && !s.inFlight ==> s.attempts < MAX_ATTEMPTS)
  }

  function Begun(nowMs: int): State {
    State(true, false, 0, nowMs, nowMs)
  }

  /** The pause after the k-th attempt; the table is only asked for entries it has. */
  function DelayAfter(k: nat): int {
    if 1 <= k < MAX_ATTEMPTS then RETRY_DELAYS_MS[k - 1] else 0
  }

  /** The step gets past every reason to stop or poll. */
  predicate Runs(s: State, i: Inputs) {
    s.active && !i.blocked && i.scheduled && i.nowMs - s.beganMs < MAX_MS && !i.startPending && !i.updateRunning
  }

  /** Starts the next attempt, once its time has come and something is due. */
  function Launched(s: State, i: Inputs): (State, RetryStep) {
    if !i.anyDue then (s.(active := false), RetryStep(Done, -1, s.attempts))
    else if i.nowMs < s.nextAtMs then (s, RetryStep(Wait, s.nextAtMs - i.nowMs, s.attempts))
    else (s.(attempts := s.attempts + 1, inFlight := true), RetryStep(StartUpdate, POLL_MS, s.attempts + 1))
  }

  function Stepped(s: State, i: Inputs): (State, RetryStep) {
    if !s.active then (s, RetryStep(Done, -1, s.attempts))
    else if i.blocked || !i.scheduled then (s.(active := false), RetryStep(Done, -1, s.attempts))
    else if i.nowMs - s.beganMs >= MAX_MS then (s.(active := false), RetryStep(GaveUp, -1, s.attempts))
    else if i.startPending || i.updateRunning then (s, RetryStep(Wait, POLL_MS, s.attempts))
    else if !s.inFlight then Launched(s, i)
    else if !i.anyDue then (s.(inFlight := false, active := false), RetryStep(Done, -1, s.attempts))
    else if s.attempts >= MAX_ATTEMPTS then (s.(inFlight := false, active := false), RetryStep(GaveUp, -1, s.attempts))
    else Launched(s.(inFlight := false, nextAtMs := i.nowMs + DelayAfter(s.attempts)), i)
  }

  class WakeSubscriptionRetry {
    var active: bool
    var inFlight: bool
    var attempts: nat
    var beganMs: int
    var nextAtMs: int

    ghost function Value(): State
      reads this
    {
      State(active, inFlight, attempts, beganMs, nextAtMs)
    }

    constructor ()
      ensures Value() == IDLE && Valid(Value())
    {
      active, inFlight, attempts, beganMs, nextAtMs := false, false, 0, 0, 0;
    }

    method Begin(nowMs: int)
      modifies this
      ensures Value() == Begun(nowMs) && Valid(Value())
    {
      active, inFlight, attempts := true, false, 0;
      beganMs, nextAtMs := nowMs, nowMs;
    }

    method Cancel()
      requires Valid(Value())
      modifies this
      ensures Value() == old(Value()).(active := false) && Valid(Value())
    {
      active := false;
    }

    method Step(i: Inputs) returns (s: RetryStep)
      requires Valid(Value())
      modifies this
      ensures (Value(), s) == Stepped(old(Value()), i) && Valid(Value())
    {
      if !active {
        return RetryStep(Done, -1, attempts);
      }
      if i.blocked || !i.scheduled {
        active := false;
        return RetryStep(Done, -1, attempts);
      }
      if i.nowMs - beganMs >= MAX_MS {
        active := false;
        return RetryStep(GaveUp, -1, attempts);
      }
      if i.startPending || i.updateRunning {
        return RetryStep(Wait, POLL_MS, attempts);
      }
      if inFlight {
        inFlight := false;
        if !i.anyDue {
          active := false;
          return RetryStep(Done, -1, attempts);
        }
        if attempts >= MAX_ATTEMPTS {
          active := false;
          return RetryStep(GaveUp, -1, attempts);
        }
        nextAtMs := i.nowMs + RETRY_DELAYS_MS[attempts - 1];
      }
      if !i.anyDue {
        active := false;
        return RetryStep(Done, -1, attempts);
      }
      if i.nowMs < nextAtMs {
        return RetryStep(Wait, nextAtMs - i.nowMs, attempts);
      }
      attempts := attempts + 1;
      inFlight := true;
      return RetryStep(StartUpdate, POLL_MS, attempts);
    }
  }

  // ----- whole runs

  datatype Event = Begin(nowMs: int) | Tick(i: Inputs) | Cancel

  /** The machine, the clock, and of the current or last retry the times its attempts were started and the times
      they were seen to have ended. */
  datatype History = History(s: State, clock: int, starts: seq<int>, ends: seq<int>)

  const START := History(IDLE, 0, [], [])

  function Record(h: History, e: Event): History {
    match e
    case Begin(nowMs) => History(Begun(nowMs), nowMs, [], [])
    case Cancel => h.(s := h.s.(active := false))
    case Tick(i) =>
      var (s, st) := Stepped(h.s, i);
      History(s, i.nowMs,
              if st.action == StartUpdate then h.starts + [i.nowMs] else h.starts,
              if Runs(h.s, i) && h.s.inFlight then h.ends + [i.nowMs] else h.ends)
  }

  function Replay(events: seq<Event>): History {
    if events == [] then START else Record(Replay(events[..|events| - 1]), events[|events| - 1])
  }

  predicate InTime(clock: int, e: Event) {
    match e case Begin(nowMs) => nowMs >= clock case Tick(i) => i.nowMs >= clock case Cancel => true
  }

  /** The clock never goes back. */
  predicate Timed(events: seq<Event>) {
    events == [] ||
    (Timed(events[..|events| - 1]) && InTime(Replay(events[..|events| - 1]).clock, events[|events| - 1]))
  }

  predicate Consistent(h: History) {
    && Valid(h.s)
    && |h.starts| == h.s.attempts && |h.ends| <= |h.starts|
    && (h.s.active ==> |h.ends| == h.s.attempts - (if h.s.inFlight then 1 else 0))
    && (h.s.active && !h.s.inFlight && h.s.attempts > 0 ==>
          h.s.nextAtMs == h.ends[h.s.attempts - 1] + DelayAfter(h.s.attempts))
    && (h.s.active && h.s.attempts == 0 ==> h.s.nextAtMs <= h.clock)
    && (forall k :: 0 <= k < |h.ends| ==> h.starts[k] <= h.ends[k])
    && (forall k {:trigger h.starts[k]} :: 0 <= k < |h.starts| ==> h.starts[k] <= h.clock)
    && |h.starts| <= |h.ends| + 1
    && (forall k {:trigger h.ends[k]} :: 0 <= k < |h.starts| - 1 ==> h.starts[k + 1] >= h.ends[k] + DelayAfter(k + 1))
  }

  /** What an event may do, given what came before. */
  predicate Allowed(h: History, e: Event) {
    match e
    case Tick(i) =>
      var (s, st) := Stepped(h.s, i);
      && (st.action == StartUpdate ==> Runs(h.s, i) && i.anyDue && 1 <= st.attempt == |h.starts| + 1 <= MAX_ATTEMPTS)
      && (i.nowMs - h.s.beganMs >= MAX_MS ==> !s.active)
      && (st.delayMs >= 0 <==> s.active)
    case _ => true
  }

  lemma LaunchKeeps(h: History, i: Inputs)
    requires Consistent(h) && Runs(h.s, i) && !h.s.inFlight && i.nowMs >= h.clock
    ensures Consistent(Record(h, Tick(i)))
  {
    var t := Record(h, Tick(i));
    assert t.ends == h.ends && h.starts <= t.starts;
    assert Stepped(h.s, i) == Launched(h.s, i);
    hide DelayAfter, Stepped;
    forall k | 0 <= k < |t.starts| - 1
      ensures t.starts[k + 1] >= t.ends[k] + DelayAfter(k + 1)
    {
      assert t.ends[k] == h.ends[k];
    }
  }

  lemma EndKeeps(h: History, i: Inputs)
    requires Consistent(h) && Runs(h.s, i) && h.s.inFlight && i.nowMs >= h.clock
    ensures Consistent(Record(h, Tick(i)))
  {
    assert h.starts[|h.ends|] <= i.nowMs;
    var t := Record(h, Tick(i));
    assert t.starts == h.starts && t.ends == h.ends + [i.nowMs];
    forall k | 0 <= k < |t.starts| - 1
      ensures t.starts[k + 1] >= t.ends[k] + DelayAfter(k + 1)
    {
      assert t.ends[k] == h.ends[k];
    }
  }

  lemma PollKeeps(h: History, i: Inputs)
    requires Consistent(h) && !Runs(h.s, i) && i.nowMs >= h.clock
    ensures Consistent(Record(h, Tick(i)))
  {
  }

  lemma TickIsAllowed(h: History, i: Inputs)
    requires Consistent(h)
    ensures Allowed(h, Tick(i))
  {
  }

  lemma EventKeeps(h: History, e: Event)
    requires Consistent(h) && InTime(h.clock, e)
    ensures Consistent(Record(h, e)) && Allowed(h, e)
  {
    match e
    case Tick(i) =>
      hide *;
      TickIsAllowed(h, i);
      assert i.nowMs >= h.clock by {
        InTimeTick(h.clock, i);
      }
      if !Runs(h.s, i) {
        PollKeeps(h, i);
      } else if h.s.inFlight {
        EndKeeps(h, i);
      } else {
        LaunchKeeps(h, i);
      }
    case _ =>
  }

  lemma InTimeTick(clock: int, i: Inputs)
    requires InTime(clock, Tick(i))
    ensures i.nowMs >= clock
  {
  }

  lemma {:induction false} HistoriesAreConsistent(events: seq<Event>)
    requires Timed(events)
    ensures Consistent(Replay(events))
  {
    if events != [] {
      hide Record, Consistent;
      HistoriesAreConsistent(events[..|events| - 1]);
      EventKeeps(Replay(events[..|events| - 1]), events[|events| - 1]);
    } else {
      assert Consistent(START);
    }
  }

  lemma AtMostFiveAttempts(events: seq<Event>)
    requires Timed(events)
    ensures |Replay(events).starts| <= MAX_ATTEMPTS
  {
    HistoriesAreConsistent(events);
  }

  /** Attempt k + 1 starts at least its table delay after attempt k was seen to end. */
  lemma AttemptsAreSpaced(events: seq<Event>, k: nat)
    requires Timed(events) && k + 1 < |Replay(events).starts|
    ensures var h := Replay(events);
            |h.starts| <= MAX_ATTEMPTS && k < |h.ends| && h.starts[k] <= h.ends[k]
            && h.starts[k + 1] >= h.ends[k] + RETRY_DELAYS_MS[k]
  {
    HistoriesAreConsistent(events);
  }

  /** Whatever comes next, it is something the past allows. */
  lemma HistoriesAreSafe(events: seq<Event>, e: Event)
    requires Timed(events) && InTime(Replay(events).clock, e)
    ensures Allowed(Replay(events), e)
  {
    HistoriesAreConsistent(events);
    EventKeeps(Replay(events), e);
  }

  /** Whether the next attempt may start: there was none, or the last one has ended and its pause is over. */
  predicate IsDue(h: History, nowMs: int)
    requires |h.starts| <= MAX_ATTEMPTS
  {
    var k := |h.starts|;
    k == 0 || (k < MAX_ATTEMPTS && |h.ends| == k && nowMs >= h.ends[k - 1] + RETRY_DELAYS_MS[k - 1])
  }

  /** The answer of a step of a retry that goes on, from the attempts so far and what is seen. */
  predicate Answers(h: History, i: Inputs, st: RetryStep)
    requires |h.starts| <= MAX_ATTEMPTS
  {
    var k := |h.starts|;
    if i.blocked || !i.scheduled then st == RetryStep(Done, -1, k)
    else if i.nowMs - h.s.beganMs >= MAX_MS then st == RetryStep(GaveUp, -1, k)
    else if i.startPending || i.updateRunning then st == RetryStep(Wait, POLL_MS, k)
    else if !i.anyDue then st == RetryStep(Done, -1, k)
    else if k == MAX_ATTEMPTS then st == RetryStep(GaveUp, -1, k)
    else if IsDue(h, i.nowMs) then st == RetryStep(StartUpdate, POLL_MS, k + 1)
    else st == RetryStep(Wait, RETRY_DELAYS_MS[k - 1] - (if |h.ends| == k then i.nowMs - h.ends[k - 1] else 0), k)
  }

  /** An attempt starts exactly when it is due, while subscriptions are, and nothing stops the retry or is in its way;
      and the retry goes on exactly when it waits or has started one. */
  lemma EveryAttemptComes(events: seq<Event>, i: Inputs)
    requires Timed(events) && InTime(Replay(events).clock, Tick(i))
    ensures var h := Replay(events); var (t, st) := Stepped(h.s, i);
            && |h.starts| <= MAX_ATTEMPTS
            && (if h.s.active then Answers(h, i, st) else st.action == Done)
            && (t.active <==> st.action == Wait || st.action == StartUpdate)
  {
    HistoriesAreConsistent(events);
    hide Replay, Timed;
    assert i.nowMs >= Replay(events).clock;
  }

  // ----- every retry ends

  /** All these calls ask for another one, and each comes no earlier than the one before it asked for. */
  predicate Continues(s: State, earliest: int, calls: seq<Inputs>)
    decreases |calls|
  {
    calls == [] ||
    var (t, st) := Stepped(s, calls[0]);
    calls[0].nowMs >= earliest && st.delayMs >= 0 && Continues(t, calls[0].nowMs + st.delayMs, calls[1..])
  }

  lemma {:induction false} CallsUseTime(s: State, earliest: int, calls: seq<Inputs>)
    requires Valid(s) && s.active && calls != [] && Continues(s, earliest, calls)
    requires !s.inFlight ==> s.nextAtMs <= earliest
    ensures POLL_MS * (|calls| - 1) < MAX_MS - (earliest - s.beganMs)
    decreases |calls|
  {
    var (t, st) := Stepped(s, calls[0]);
    if |calls| > 1 {
      CallsUseTime(t, calls[0].nowMs + st.delayMs, calls[1..]);
    }
  }

  const MOST_CALLS := 600

  /** A driver that waits as asked is asked to call again at most 600 times. */
  lemma RetriesEnd(nowMs: int, calls: seq<Inputs>)
    requires Continues(Begun(nowMs), nowMs, calls)
    ensures |calls| <= MOST_CALLS
  {
    if calls != [] {
      CallsUseTime(Begun(nowMs), nowMs, calls);
    }
  }
}
