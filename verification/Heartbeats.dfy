/** HeartbeatMonitor: inbound traffic and ticks as a timed machine; times are integers on one clock. */
module Heartbeats {
  import opened Wrappers

  /** Interval and TestReqTimeout after the defaults of NewHeartbeatMonitor. */
  datatype Config = Config(interval: int, timeout: int)

  const DEFAULT_INTERVAL: int := 30_000_000_000

  function NewConfig(interval: int, timeout: int): (c: Config)
    ensures Usable(c)
    ensures interval > 0 ==> c.interval == interval
    ensures timeout > 0 ==> c.timeout == timeout
    ensures interval <= 0 ==> c.interval == 30 * 1_000_000_000
    ensures timeout <= 0 ==> c.timeout == c.interval
  {
    var i := if interval <= 0 then DEFAULT_INTERVAL else interval;
    Config(i, if timeout <= 0 then i else timeout)
  }

  predicate Usable(c: Config) {
    c.interval > 0 && c.timeout > 0
  }

  // ---- the monitor ----

  datatype Monitor = Monitor(lastSeen: int, testSent: int, outstanding: bool)

  /** What a tick decides under the lock. */
  datatype Action = Nothing | SendTestRequest | CheckTimeout

  function Look(c: Config, m: Monitor, now: int): Action {
    if now - m.lastSeen <= c.interval then Nothing
    else if !m.outstanding then SendTestRequest
    else CheckTimeout
  }

  /** What it does afterwards; the lock has been released in between. */
  function Act(m: Monitor, action: Action, now: int): Monitor {
    if action == SendTestRequest then m.(testSent := now, outstanding := true) else m
  }

  /** Does the tick stop the session? */
  predicate Stops(c: Config, m: Monitor, action: Action, now: int) {
    action == CheckTimeout && now - m.testSent > c.timeout
  }

  function Seen(m: Monitor, now: int): Monitor {
    m.(lastSeen := now, outstanding := false)
  }

  class HeartbeatMonitor {
    const config: Config
    var lastSeen: int
    var testSent: int
    var outstanding: bool
    /** When TestRequests were sent, and when Session.Stop was called. */
    var requests: seq<int>
    var stops: seq<int>

    constructor (interval: int, timeout: int)
      ensures config == NewConfig(interval, timeout)
      ensures !outstanding && requests == [] && stops == []
    {
      config := NewConfig(interval, timeout);
      lastSeen, testSent, outstanding, requests, stops := 0, 0, false, [], [];
    }

    function State(): Monitor
      reads this
    {
      Monitor(lastSeen, testSent, outstanding)
    }

    /** The part of Start before the loop. */
    method Start(now: int)
      modifies this`lastSeen
      ensures State() == old(State()).(lastSeen := now)
    {
      lastSeen := now;
    }

    method SeenAt(now: int)
      modifies this`lastSeen, this`outstanding
      ensures State() == Seen(old(State()), now)
      ensures lastSeen == now && !outstanding && testSent == old(testSent)
    {
      lastSeen := now;
      outstanding := false;
    }

    /** The first locked section of a tick, and the comparison with the interval. */
    method LookAt(now: int) returns (action: Action)
      ensures action == Look(config, State(), now)
    {
      var silent, out := now - lastSeen > config.interval, outstanding;
      if !silent {
        return Nothing;
      }
      return if out then CheckTimeout else SendTestRequest;
    }

    /** The rest of the tick, with the action looked up before: whatever happened in between, it is carried out. */
    method ActOn(action: Action, now: int)
      modifies this
      ensures State() == Act(old(State()), action, now)
      ensures requests == old(requests) + (if action == SendTestRequest then [now] else [])
      ensures stops == old(stops) + if Stops(config, old(State()), action, now) then [now] else []
    {
      if action == SendTestRequest {
        requests := requests + [now];
        testSent := now;
        outstanding := true;
      } else if action == CheckTimeout {
        var ts := testSent;
        if now - ts > config.timeout {
          stops := stops + [now];
        }
      }
    }

    /** The body of the loop for one tick; with traffic between its two halves if interrupted. */
    method Tick(now: int, interrupted: bool)
      modifies this
      ensures var m, action := old(State()), Look(config, old(State()), now);
        && State() == Act(if interrupted then Seen(m, now) else m, action, now)
        && requests == old(requests) + (if action == SendTestRequest then [now] else [])
        && stops == old(stops) + if Stops(config, m, action, now) then [now] else []
      ensures now - old(lastSeen) <= config.interval ==> requests == old(requests) && stops == old(stops)
      ensures now - old(lastSeen) > config.interval && !old(outstanding) ==>
        requests == old(requests) + [now] && stops == old(stops) && testSent == now && outstanding
      ensures now - old(lastSeen) > config.interval && old(outstanding) ==>
        requests == old(requests) && testSent == old(testSent) &&
        stops == old(stops) + if now - old(testSent) > config.timeout then [now] else []
      ensures lastSeen == if interrupted then now else old(lastSeen)
    {
      var action := LookAt(now);
      if interrupted {
        SeenAt(now);
      }
      ActOn(action, now);
    }
  }

  // ---- runs ----

  /**
   The first stop, the last traffic before it, and the last TestRequest before it; whether traffic came
   inside the tick that sent that request, and inside the tick that stopped the session.
   */
  datatype Stop = Stop(at: int, lastSeen: int, requestedAt: int, requestHit: bool, stopHit: bool)

  /**
   now is the time of the last event, and lastTick that of the last tick or of Start; requestHit tells
   whether traffic came inside the tick that sent the outstanding request. It is history, as is stop.
   */
  datatype State = State(now: int, lastTick: int, monitor: Monitor, requestHit: bool, stop: Option<Stop>)

  /** Inbound traffic between ticks, and a tick, with traffic between its look and its act if interrupted. */
  datatype Event = Traffic(at: int) | Tick(interrupted: bool)

  function Started(now: int): State {
    State(now, now, Monitor(now, 0, false), false, None)
  }

  /** Traffic may come at any time up to the next tick; ticks come Interval apart. */
  predicate Enabled(c: Config, s: State, e: Event) {
    e.Traffic? ==> s.now <= e.at <= s.lastTick + c.interval
  }

  function TickAt(c: Config, s: State, now: int, interrupted: bool): State {
    var action := Look(c, s.monitor, now);
    var before := if interrupted then Seen(s.monitor, now) else s.monitor;
    State(now, now, Act(before, action, now),
          if action == SendTestRequest then interrupted else s.requestHit,
          if s.stop.None? && Stops(c, before, action, now)
          then Some(Stop(now, before.lastSeen, before.testSent, s.requestHit, interrupted))
          else s.stop)
  }

  function After(c: Config, s: State, e: Event): State {
    match e
    case Traffic(at) => s.(now := at, monitor := Seen(s.monitor, at))
    case Tick(interrupted) => TickAt(c, s, s.lastTick + c.interval, interrupted)
  }

  function Run(c: Config, s: State, events: seq<Event>): Option<State> {
    if events == [] then Some(s)
    else
      match Run(c, s, events[..|events| - 1])
      case None => None
      case Some(mid) =>
        if Enabled(c, mid, events[|events| - 1]) then Some(After(c, mid, events[|events| - 1])) else None
  }

  /**
   An outstanding request went out more than one and at most two intervals after the last traffic, or at
   the very time of it if its tick was interrupted; and it has not timed out yet, or the peer is not silent.
   */
  predicate Inv(c: Config, s: State) {
    var m := s.monitor;
    && m.lastSeen <= s.now && s.lastTick <= s.now <= s.lastTick + c.interval
    && (!m.outstanding ==> s.lastTick - m.lastSeen <= c.interval)
    && (m.outstanding ==> m.testSent <= s.lastTick && s.lastTick - m.lastSeen >= 0)
    && (m.outstanding && s.requestHit ==> m.testSent == m.lastSeen)
    && (m.outstanding && !s.requestHit ==> c.interval < m.testSent - m.lastSeen <= 2 * c.interval)
    && (m.outstanding && s.stop.None? ==>
          s.lastTick - m.testSent <= c.timeout || s.lastTick - m.lastSeen <= c.interval)
  }

  /**
   The session is stopped after the lower bound, by the upper bound, and after a TestRequest sent since
   the last traffic.
   */
  predicate InTime(c: Config, stop: Stop) {
    && stop.lastSeen + c.interval + c.timeout < stop.at <= stop.lastSeen + 3 * c.interval + c.timeout
    && stop.lastSeen + c.interval < stop.requestedAt < stop.at
  }

  /** The stop, if there was one, met the bound exactly if no traffic hit the two ticks behind it. */
  predicate StopJudged(c: Config, s: State) {
    s.stop.Some? ==> (InTime(c, s.stop.value) <==> !s.stop.value.requestHit && !s.stop.value.stopHit)
  }

  lemma {:induction false} TickKeepsInv(c: Config, s: State, interrupted: bool)
    requires Usable(c) && Inv(c, s) && StopJudged(c, s)
    ensures var t := After(c, s, Tick(interrupted));
      Inv(c, t) && StopJudged(c, t)
  {
    match Look(c, s.monitor, s.lastTick + c.interval) {
      case Nothing =>
      case SendTestRequest =>
      case CheckTimeout =>
    }
  }

  lemma {:induction false} RunKeepsInv(c: Config, start: int, events: seq<Event>)
    requires Usable(c) && Run(c, Started(start), events).Some?
    ensures Inv(c, Run(c, Started(start), events).value) && StopJudged(c, Run(c, Started(start), events).value)
  {
    if events == [] {
    } else {
      var last := events[|events| - 1];
      RunKeepsInv(c, start, events[..|events| - 1]);
      if last.Tick? {
        TickKeepsInv(c, Run(c, Started(start), events[..|events| - 1]).value, last.interrupted);
      }
    }
  }

  /**
   The heartbeat bound, over all runs: a stop meets the bound exactly if traffic came neither inside the
   tick that sent the TestRequest nor inside the tick that stopped the session. While the session is
   not stopped, the tick that will be the last one in time is still ahead.
   */
  lemma {:induction false} HeartbeatBound(c: Config, start: int, events: seq<Event>)
    requires Usable(c) && Run(c, Started(start), events).Some?
    ensures var s := Run(c, Started(start), events).value;
      match s.stop
      case Some(stop) => InTime(c, stop) <==> !stop.requestHit && !stop.stopHit
      case None => s.lastTick + c.interval <= s.monitor.lastSeen + 3 * c.interval + c.timeout
  {
    RunKeepsInv(c, start, events);
  }

  /** Ticks without traffic inside them. */
  predicate AllAtomic(events: seq<Event>) {
    forall i :: 0 <= i < |events| && events[i].Tick? ==> !events[i].interrupted
  }

  lemma {:induction false} AtomicRun(c: Config, start: int, events: seq<Event>)
    requires Run(c, Started(start), events).Some? && AllAtomic(events)
    ensures var s := Run(c, Started(start), events).value;
      !s.requestHit && (s.stop.Some? ==> !s.stop.value.requestHit && !s.stop.value.stopHit)
  {
    if events == [] {
    } else {
      AtomicRun(c, start, events[..|events| - 1]);
    }
  }

  /** With atomic ticks the bound holds in every run. */
  lemma {:induction false} AtomicHeartbeatBound(c: Config, start: int, events: seq<Event>)
    requires Usable(c) && Run(c, Started(start), events).Some? && AllAtomic(events)
    ensures var stop := Run(c, Started(start), events).value.stop;
      stop.Some? ==> InTime(c, stop.value)
  {
    HeartbeatBound(c, start, events);
    AtomicRun(c, start, events);
  }

  // ---- concrete runs ----

  lemma {:induction false} FourTicks(interval: int, start: int, second: bool, fourth: bool)
    requires interval > 0
    ensures var c := Config(interval, interval);
      var s := Run(c, Started(start), [Tick(false), Tick(second), Tick(false), Tick(fourth)]);
      s.Some? && s.value.stop ==
        Some(Stop(start + 4 * interval,
                  if fourth then start + 4 * interval else if second then start + 2 * interval else start,
                  start + 2 * interval, second, fourth))
  {
    var c, s := Config(interval, interval), Started(start);
    var events := [Tick(false), Tick(second), Tick(false), Tick(fourth)];
    assert events[..3][..2] == events[..2] && events[..2][..1] == events[..1] && events[..1][..0] == [];
    assert Run(c, s, events[..1]) == Some(After(c, s, Tick(false)));
    var m := Monitor(if second then start + 2 * interval else start, start + 2 * interval, true);
    assert Run(c, s, events[..2]) == Some(State(start + 2 * interval, start + 2 * interval, m, second, None));
    assert Run(c, s, events[..3]) == Some(State(start + 3 * interval, start + 3 * interval, m, second, None));
  }

  /** The upper bound is met: with no traffic after Start and equal times, the fourth tick stops the session. */
  lemma {:induction false} BoundIsMet(interval: int, start: int)
    requires interval > 0
    ensures var c := Config(interval, interval);
      var s := Run(c, Started(start), [Tick(false), Tick(false), Tick(false), Tick(false)]);
      s.Some? && s.value.stop == Some(Stop(start + 4 * interval, start, start + 2 * interval, false, false))
  {
    FourTicks(interval, start, false, false);
  }

  /**
   Traffic inside the tick that sends the TestRequest: the session is stopped no later than
   Interval + TestReqTimeout after that traffic.
   */
  lemma {:induction false} InterruptedRequestStopsEarly(interval: int, start: int)
    requires interval > 0
    ensures var c := Config(interval, interval);
      var s := Run(c, Started(start), [Tick(false), Tick(true), Tick(false), Tick(false)]);
      s.Some? && s.value.stop.Some? &&
      s.value.stop.value.at <= s.value.stop.value.lastSeen + c.interval + c.timeout
  {
    FourTicks(interval, start, true, false);
  }

  /**
   Traffic inside the tick that finds the request timed out: the session is stopped at the very time of
   that traffic.
   */
  lemma {:induction false} InterruptedTimeoutStopsAtOnce(interval: int, start: int)
    requires interval > 0
    ensures var c := Config(interval, interval);
      var s := Run(c, Started(start), [Tick(false), Tick(false), Tick(false), Tick(true)]);
      s.Some? && s.value.stop.Some? && s.value.stop.value.at == s.value.stop.value.lastSeen
  {
    FourTicks(interval, start, false, true);
  }
}
