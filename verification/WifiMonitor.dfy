/** The Wi-Fi monitor: reads run on a worker thread, at most one at a time, and requests made meanwhile are
    coalesced. The window's thread, the worker and the queue between them interleave freely. */
module WifiMonitoring {

  datatype ReadState = Connected | NotConnected | PermissionNeeded | Unavailable
  datatype Reading = Reading(state: ReadState, ssid: string, detail: string, source: string)

  const NO_READING := Reading(Unavailable, "", "", "")

  // ----- the change tracker

  datatype Tracker = Tracker(ssid: string, last: Reading, hasLast: bool)
  datatype Update = Update(ssidChanged: bool, readingChanged: bool, ssid: string)

  const NEW_TRACKER := Tracker("", NO_READING, false)

  predicate Definite(r: Reading) {
    r.state == Connected || r.state == NotConnected
  }

  function SsidOf(r: Reading): string {
    if r.state == Connected then r.ssid else ""
  }

  /** A connection to a network without a name counts as no connection. */
  function Settled(r: Reading): Reading {
    if r.state == Connected && r.ssid == "" then Reading(NotConnected, "", r.detail, r.source) else r
  }

  function Applied(t: Tracker, r: Reading): (Tracker, Update) {
    var ssid := if Definite(r) then SsidOf(r) else t.ssid;
    (Tracker(ssid, Settled(r), true), Update(ssid != t.ssid, !t.hasLast || t.last != Settled(r), ssid))
  }

  class ChangeTracker {
    var ssid: string
    var last: Reading
    var hasLast: bool

    ghost function Value(): Tracker
      reads this
    {
      Tracker(ssid, last, hasLast)
    }

    constructor ()
      ensures Value() == NEW_TRACKER
    {
      ssid, last, hasLast := "", NO_READING, false;
    }

    method Apply(input: Reading) returns (u: Update)
      modifies this
      ensures (Value(), u) == Applied(old(Value()), input)
    {
      var reading := input;
      if reading.state == Connected && reading.ssid == "" {
        reading := Reading(NotConnected, "", reading.detail, reading.source);
      }
      var readingChanged := !hasLast || last != reading;
      var ssidChanged := false;
      last := reading;
      hasLast := true;
      if reading.state == Connected || reading.state == NotConnected {
        var next := if reading.state == Connected then reading.ssid else "";
        if next != ssid {
          ssid := next;
          ssidChanged := true;
        }
      }
      u := Update(ssidChanged, readingChanged, ssid);
    }
  }

  // ----- the monitor

  /** `posted` counts the reads handed to the worker's queue; the last two list the signals emitted. */
  datatype Monitor = Monitor(active: bool, inFlight: bool, again: bool, hasReading: bool, tracker: Tracker,
                             cached: string, posted: nat, readingSignals: seq<Reading>, ssidSignals: seq<string>)

  function Requested(m: Monitor): Monitor {
    if m.inFlight then m.(again := true) else m.(inFlight := true, posted := m.posted + 1)
  }

  function Activated(m: Monitor, active: bool): Monitor {
    if active == m.active then m
    else if active then Requested(m.(active := true))
    else m.(active := false)
  }

  function Received(m: Monitor, r: Reading): Monitor {
    var (tracker, u) := Applied(m.tracker, r);
    var n := m.(inFlight := false, again := false, hasReading := true, tracker := tracker, cached := tracker.ssid,
                readingSignals := if u.readingChanged then m.readingSignals + [r] else m.readingSignals,
                ssidSignals := if u.ssidChanged then m.ssidSignals + [u.ssid] else m.ssidSignals);
    if m.again then Requested(n) else n
  }

  class WifiMonitor {
    const tracker: ChangeTracker
    var active: bool
    var inFlight: bool
    var again: bool
    var hasReading: bool
    var cached: string
    var posted: nat
    var readingSignals: seq<Reading>
    var ssidSignals: seq<string>

    ghost function Value(): Monitor
      reads this, tracker
    {
      Monitor(active, inFlight, again, hasReading, tracker.Value(), cached, posted, readingSignals, ssidSignals)
    }

    constructor ()
      ensures Value() == IDLE && fresh(tracker)
    {
      tracker := new ChangeTracker();
      active, inFlight, again, hasReading := false, false, false, false;
      cached, posted, readingSignals, ssidSignals := "", 0, [], [];
    }

    method SetActive(wanted: bool)
      modifies this
      ensures Value() == Activated(old(Value()), wanted)
    {
      if wanted == active {
        return;
      }
      active := wanted;
      if wanted {
        RequestRead();
      }
    }

    method RefreshNow()
      modifies this
      ensures Value() == Requested(old(Value()))
    {
      RequestRead();
    }

    method RequestRead()
      modifies this
      ensures Value() == Requested(old(Value()))
    {
      if inFlight {
        again := true;
        return;
      }
      inFlight := true;
      posted := posted + 1;
    }

    method OnReadingReady(reading: Reading)
      modifies this, tracker
      ensures Value() == Received(old(Value()), reading)
    {
      inFlight := false;
      hasReading := true;
      var update := tracker.Apply(reading);
      cached := tracker.ssid;
      if update.readingChanged {
        readingSignals := readingSignals + [reading];
      }
      if update.ssidChanged {
        ssidSignals := ssidSignals + [update.ssid];
      }
      if again {
        again := false;
        RequestRead();
      }
    }
  }

  const IDLE := Monitor(false, false, false, false, NEW_TRACKER, "", 0, [], [])

  // ----- both threads

  datatype Completion = Completion(reading: Reading, startedAt: nat)

  /** The monitor, the worker and the completions queued back to the window's thread. Every event takes one tick of
      `clock`; an observer notes when the last request came, when the last delivered read had started, and the
      readings delivered. */
  datatype System = System(m: Monitor, taken: nat, running: bool, startedAt: nat, queued: seq<Completion>,
                           clock: nat, lastRequest: nat, lastStart: nat, delivered: seq<Reading>)

  datatype Event = Request | Activate(active: bool) | WorkerStarts | WorkerFinishes(reading: Reading) | Deliver

  const BOOT := System(IDLE, 0, false, 0, [], 1, 0, 0, [])

  predicate Enabled(s: System, e: Event) {
    match e
    case WorkerStarts => s.taken < s.m.posted && !s.running
    case WorkerFinishes(_) => s.running
    case Deliver => s.queued != []
    case _ => true
  }

  /** One step of either thread; an event that cannot happen changes nothing. */
  function Next(s: System, e: Event): System {
    var t := s.(clock := s.clock + 1);
    if !Enabled(s, e) then s
    else match e
    case Request => t.(m := Requested(s.m), lastRequest := s.clock)
    case Activate(active) =>
      t.(m := Activated(s.m, active), lastRequest := if active && !s.m.active then s.clock else s.lastRequest)
    case WorkerStarts => t.(taken := s.taken + 1, running := true, startedAt := s.clock)
    case WorkerFinishes(reading) => t.(running := false, queued := s.queued + [Completion(reading, s.startedAt)])
    case Deliver =>
      t.(m := Received(s.m, s.queued[0].reading), queued := s.queued[1..], lastStart := s.queued[0].startedAt,
         delivered := s.delivered + [s.queued[0].reading])
  }

  function Replay(events: seq<Event>): System {
    if events == [] then BOOT else Next(Replay(events[..|events| - 1]), events[|events| - 1])
  }

  /** Reads that were asked for and not yet delivered: waiting, running, or done and queued. */
  function Outstanding(s: System): int {
    s.m.posted - s.taken + (if s.running then 1 else 0) + |s.queued|
  }

  /** The SSID of the last definite reading. */
  function LastDefinite(rs: seq<Reading>): string {
    if rs == [] then ""
    else if Definite(rs[|rs| - 1]) then SsidOf(rs[|rs| - 1])
    else LastDefinite(rs[..|rs| - 1])
  }

  predicate NeighboursDiffer(values: seq<string>) {
    forall i :: 0 <= i < |values| - 1 ==> values[i] != values[i + 1]
  }

  predicate ReadingsDiffer(rs: seq<Reading>) {
    forall i :: 0 <= i < |rs| - 1 ==> Settled(rs[i]) != Settled(rs[i + 1])
  }

  /** The last reading signalled is, settled, the last one delivered. */
  predicate LastIsSignalled(tracker: Tracker, signals: seq<Reading>, delivered: seq<Reading>) {
    && (tracker.hasLast <==> signals != []) && (signals != [] <==> delivered != [])
    && (signals != [] ==>
          Settled(signals[|signals| - 1]) == tracker.last == Settled(delivered[|delivered| - 1]))
  }

  /** Reads in flight and the requests they answer. */
  predicate Counted(s: System) {
    && s.taken <= s.m.posted
    && Outstanding(s) == (if s.m.inFlight then 1 else 0)
    && (s.m.again ==> s.m.inFlight)
    && s.lastRequest < s.clock
    && (s.running && !s.m.again ==> s.startedAt > s.lastRequest)
    && (s.queued != [] && !s.m.again ==> s.queued[0].startedAt > s.lastRequest)
    && (!s.m.inFlight && s.lastRequest > 0 ==> s.lastStart > s.lastRequest)
    && (s.m.hasReading <==> s.delivered != [])
  }

  /** The SSID kept and the signals about it. */
  predicate Signalled(s: System) {
    && s.m.tracker.ssid == s.m.cached == LastDefinite(s.delivered)
    && NeighboursDiffer([""] + s.m.ssidSignals)
    && ([""] + s.m.ssidSignals)[|s.m.ssidSignals|] == s.m.cached
  }

  /** The signals about readings. */
  predicate ReadingsSignalled(s: System) {
    ReadingsDiffer(s.m.readingSignals) && LastIsSignalled(s.m.tracker, s.m.readingSignals, s.delivered)
  }

  predicate Consistent(s: System) {
    Counted(s) && Signalled(s) && ReadingsSignalled(s)
  }

  lemma DeliveryKeepsCount(s: System)
    requires Counted(s) && s.queued != []
    ensures Counted(Next(s, Deliver))
  {
    hide LastDefinite;
  }

  lemma DeliveryKeepsSignals(s: System)
    requires Signalled(s) && s.queued != []
    ensures Signalled(Next(s, Deliver))
  {
    hide Settled, Outstanding, NeighboursDiffer;
    var r, t := s.queued[0].reading, Next(s, Deliver);
    assert t.delivered[..|s.delivered|] == s.delivered;
    if Applied(s.m.tracker, r).1.ssidChanged {
      assert [""] + t.m.ssidSignals == ([""] + s.m.ssidSignals) + [t.m.cached];
      AppendedDiffers([""] + s.m.ssidSignals, t.m.cached);
    }
  }

  lemma AppendedDiffers(values: seq<string>, v: string)
    requires values != [] && NeighboursDiffer(values) && values[|values| - 1] != v
    ensures NeighboursDiffer(values + [v])
  {
  }

  lemma DeliveryKeepsReadings(s: System)
    requires ReadingsSignalled(s) && s.queued != []
    ensures ReadingsSignalled(Next(s, Deliver))
  {
  }

  lemma EventKeeps(s: System, e: Event)
    requires Consistent(s)
    ensures Consistent(Next(s, e))
  {
    if e.Deliver? && Enabled(s, e) {
      hide Counted, Signalled, ReadingsSignalled;
      DeliveryKeepsCount(s);
      DeliveryKeepsSignals(s);
      DeliveryKeepsReadings(s);
    }
  }

  lemma {:induction false} EveryStateIsConsistent(events: seq<Event>)
    ensures Consistent(Replay(events))
  {
    if events == [] {
      assert Consistent(BOOT);
    } else {
      hide Next, Consistent;
      EveryStateIsConsistent(events[..|events| - 1]);
      EventKeeps(Replay(events[..|events| - 1]), events[|events| - 1]);
    }
  }

  /** At most one read is outstanding, however the threads interleave. */
  lemma {:induction false} OneReadAtATime(events: seq<Event>)
    ensures var s := Replay(events);
            s.taken <= s.m.posted && Outstanding(s) <= 1 && (s.m.inFlight <==> Outstanding(s) == 1)
  {
    EveryStateIsConsistent(events);
  }

  /** No request is lost: once nothing is in flight, the last delivered read had started after the last request. */
  lemma {:induction false} IdleMeansFresh(events: seq<Event>)
    ensures var s := Replay(events);
            !s.m.inFlight && s.lastRequest > 0 ==> s.lastStart > s.lastRequest && !s.m.again && s.m.hasReading
  {
    EveryStateIsConsistent(events);
    StartedMeansDelivered(events);
  }

  lemma {:induction false} StartedMeansDelivered(events: seq<Event>)
    ensures Replay(events).lastStart > 0 ==> Replay(events).delivered != []
  {
    if events != [] {
      StartedMeansDelivered(events[..|events| - 1]);
    }
  }

  /** The SSID that other threads see is that of the last definite reading, and each change signal differs from the
      one before it. */
  lemma {:induction false} SsidIsLastDefinite(events: seq<Event>)
    ensures var m := Replay(events).m;
            && m.cached == m.tracker.ssid == LastDefinite(Replay(events).delivered)
            && NeighboursDiffer(m.ssidSignals)
            && (m.ssidSignals != [] ==> m.ssidSignals[0] != "" && m.ssidSignals[|m.ssidSignals| - 1] == m.cached)
  {
    hide Replay, LastDefinite;
    EveryStateIsConsistent(events);
    DropFirst("", Replay(events).m.ssidSignals);
  }

  /** Each reading that is signalled differs from the one before it, and the last one signalled is the last one
      delivered, a connection without a name counting as none. */
  lemma {:induction false} ReadingSignalsAreChanges(events: seq<Event>)
    ensures var s := Replay(events);
            ReadingsDiffer(s.m.readingSignals) && LastIsSignalled(s.m.tracker, s.m.readingSignals, s.delivered)
  {
    hide Replay, ReadingsDiffer, LastIsSignalled;
    EveryStateIsConsistent(events);
  }

  lemma DropFirst(first: string, values: seq<string>)
    requires NeighboursDiffer([first] + values)
    ensures NeighboursDiffer(values) && (values != [] ==> values[0] != first)
  {
    var all := [first] + values;
    forall i | 0 <= i < |values| - 1
      ensures values[i] != values[i + 1]
    {
      assert all[i + 1] != all[i + 2];
    }
    if values != [] {
      assert all[0] != all[1];
    }
  }

  /** What a connection without a name does is what no connection does. */
  lemma UnnamedIsNone(t: Tracker, detail: string, source: string)
    ensures Applied(t, Reading(Connected, "", detail, source)) == Applied(t, Reading(NotConnected, "", detail, source))
  {
  }

  /** What the last call of `setActive` asked for. */
  function LastWanted(events: seq<Event>): bool {
    if events == [] then false
    else match events[|events| - 1]
      case Activate(active) => active
      case _ => LastWanted(events[..|events| - 1])
  }

  lemma {:induction false} ActiveIsLastWanted(events: seq<Event>)
    ensures Replay(events).m.active == LastWanted(events)
  {
    if events != [] {
      ActiveIsLastWanted(events[..|events| - 1]);
    }
  }

  /** Requests so far: those made directly, and each call that turns the monitor on. */
  function Requests(events: seq<Event>): nat {
    if events == [] then 0
    else
      var before := events[..|events| - 1];
      Requests(before) + match events[|events| - 1]
                         case Request => 1
                         case Activate(active) => if active && !LastWanted(before) then 1 else 0
                         case _ => 0
  }

  /** No read is made that was not asked for: never more of them than requests, one that is still owed included. */
  lemma {:induction false} ReadsAreAskedFor(events: seq<Event>)
    ensures var m := Replay(events).m; m.posted + (if m.again then 1 else 0) <= Requests(events)
  {
    if events != [] {
      hide Settled, SsidOf, Definite;
      ActiveIsLastWanted(events[..|events| - 1]);
      ReadsAreAskedFor(events[..|events| - 1]);
    }
  }
}
