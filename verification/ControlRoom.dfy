/** Heartbeat monitoring: exact healthy time and the trail of status changes. */
module ControlRoom {
  import opened Wrappers

  const DEGRADED_MS := 3000
  const OFFLINE_MS := 10000
  const DEFAULT_HISTORY_LIMIT := 50

  datatype Status = Healthy | Degraded | Offline

  datatype Transition = Transition(from: Status, to: Status, at: int)

  function StatusFor(lastSeen: int, now: int): Status {
    if now - lastSeen >= OFFLINE_MS then Offline
    else if now - lastSeen >= DEGRADED_MS then Degraded
    else Healthy
  }

  function HealthyOverlapMs(lastSeen: int, from: int, to: int): int {
    Max(0, Min(to, lastSeen + DEGRADED_MS) - Max(from, lastSeen))
  }

  /** What is kept about one source. */
  datatype Record = Record(
    lastSeen: int, firstSeen: int, status: Status, lastEvaluated: int,
    healthyMs: int, observedMs: int, transitions: seq<Transition>)

  datatype Uptime = Uptime(
    status: Status, lastSeenMsAgo: int, uptimeHundredths: int, firstSeen: int,
    observedMs: int, healthyMs: int, transitions: seq<Transition>)

  // --- What the calls do to one source ---

  datatype Event = Beat(at: int) | Tick(at: int)

  function Advanced(r: Record, now: int): Record {
    if now <= r.lastEvaluated then r
    else r.(observedMs := r.observedMs + (now - r.lastEvaluated),
            healthyMs := r.healthyMs + HealthyOverlapMs(r.lastSeen, r.lastEvaluated, now),
            lastEvaluated := now)
  }

  /** The last `limit` of the transitions. */
  function Last(transitions: seq<Transition>, limit: nat): seq<Transition> {
    if |transitions| > limit then transitions[|transitions| - limit..] else transitions
  }

  function Moved(r: Record, status: Status, now: int, limit: nat): Record {
    if r.status == status then r
    else r.(status := status, transitions := Last(r.transitions + [Transition(r.status, status, now)], limit))
  }

  function Step(r: Option<Record>, event: Event, limit: nat): Option<Record> {
    match event
    case Beat(now) =>
      Some(if r.None? then Record(now, now, Healthy, now, 0, 0, [])
           else Moved(Advanced(r.value, now).(lastSeen := now), Healthy, now, limit))
    case Tick(now) =>
      if r.None? then None
      else Some(Moved(Advanced(r.value, now), StatusFor(r.value.lastSeen, now), now, limit))
  }

  function After(events: seq<Event>, limit: nat): Option<Record> {
    if events == [] then None
    else Step(After(events[..|events| - 1], limit), events[|events| - 1], limit)
  }

  /** JavaScript's Math.round of `healthy / observed`, in hundredths of a percent. */
  function Hundredths(healthy: int, observed: int): int {
    if observed <= 0 then 10000 else (20000 * healthy + observed) / (2 * observed)
  }

  function Report(r: Record, now: int): Uptime {
    var healthyMs := r.healthyMs + HealthyOverlapMs(r.lastSeen, r.lastEvaluated, now);
    var observedMs := r.observedMs + Max(0, now - r.lastEvaluated);
    Uptime(StatusFor(r.lastSeen, now), Max(0, now - r.lastSeen), Hundredths(healthyMs, observedMs),
           r.firstSeen, observedMs, healthyMs, r.transitions)
  }

  function ReportOf(r: Option<Record>, now: int): Option<Uptime> {
    if r.Some? then Some(Report(r.value, now)) else None
  }

  // --- The measure the accounting is meant to be ---

  ghost predicate Covered(beats: seq<int>, t: int) {
    exists b :: b in beats && b <= t < b + DEGRADED_MS
  }

  /** The milliseconds from `from` up to `to` that lie within three seconds after a beat. */
  ghost function Measure(beats: seq<int>, from: int, to: int): (m: int)
    ensures 0 <= m <= Max(0, to - from)
    decreases Max(0, to - from)
  {
    if to <= from then 0
    else Measure(beats, from, to - 1) + if Covered(beats, to - 1) then 1 else 0
  }

  lemma {:induction false} MeasureSplits(beats: seq<int>, from: int, mid: int, to: int)
    requires from <= mid <= to
    ensures Measure(beats, from, to) == Measure(beats, from, mid) + Measure(beats, mid, to)
    decreases Max(0, to - mid)
  {
    if mid < to {
      MeasureSplits(beats, from, mid, to - 1);
    }
  }

  lemma {:induction false} LaterBeatsAddNothing(beats: seq<int>, beat: int, from: int, to: int)
    requires to <= beat
    ensures Measure(beats + [beat], from, to) == Measure(beats, from, to)
    decreases Max(0, to - from)
  {
    if from < to {
      LaterBeatsAddNothing(beats, beat, from, to - 1);
      var more := beats + [beat];
      assert Covered(more, to - 1) <==> Covered(beats, to - 1) by {
        if Covered(beats, to - 1) {
          var b :| b in beats && b <= to - 1 < b + DEGRADED_MS;
          assert b in more;
        }
      }
    }
  }

  /** From the last beat on, coverage is one interval: the overlap the code computes. */
  lemma {:induction false} OverlapIsMeasure(beats: seq<int>, last: int, from: int, to: int)
    requires last in beats && (forall b :: b in beats ==> b <= last) && last <= from
    ensures HealthyOverlapMs(last, from, to) == Measure(beats, from, to)
    decreases Max(0, to - from)
  {
    if from < to {
      OverlapIsMeasure(beats, last, from, to - 1);
      assert Covered(beats, to - 1) <==> to - 1 < last + DEGRADED_MS;
    }
  }

  /** For one beat the overlap is its window's, wherever the span lies. */
  lemma {:induction false} OverlapOfOneBeat(beat: int, from: int, to: int)
    ensures HealthyOverlapMs(beat, from, to) == Measure([beat], from, to)
    decreases Max(0, to - from)
  {
    if from < to {
      OverlapOfOneBeat(beat, from, to - 1);
      assert beat in [beat];
      assert Covered([beat], to - 1) <==> beat <= to - 1 < beat + DEGRADED_MS;
    }
  }

  // --- Runs ---

  predicate InOrder(events: seq<Event>) {
    forall j, k :: 0 <= j < k < |events| ==> events[j].at <= events[k].at
  }

  function Beats(events: seq<Event>): seq<int> {
    if events == [] then []
    else
      var before, e := Beats(events[..|events| - 1]), events[|events| - 1];
      if e.Beat? then before + [e.at] else before
  }

  /** A chain of changes, each leaving the status the one before it reached. */
  ghost predicate Trail(transitions: seq<Transition>) {
    && (forall k :: 0 <= k < |transitions| ==> transitions[k].from != transitions[k].to)
    && (forall j, k :: 0 <= j && k == j + 1 && k < |transitions| ==>
          transitions[j].to == transitions[k].from && transitions[j].at <= transitions[k].at)
  }

  /** What a record says after the given beats. */
  ghost predicate Accounts(r: Record, beats: seq<int>) {
    && r.lastSeen in beats && (forall b :: b in beats ==> r.firstSeen <= b <= r.lastSeen)
    && r.firstSeen in beats && r.lastSeen <= r.lastEvaluated
    && r.observedMs == r.lastEvaluated - r.firstSeen
    && r.healthyMs == Measure(beats, r.firstSeen, r.lastEvaluated)
    && r.status == StatusFor(r.lastSeen, r.lastEvaluated)
  }

  ghost predicate Trails(r: Record) {
    && Trail(r.transitions)
    && r.status == (if r.transitions == [] then Healthy else r.transitions[|r.transitions| - 1].to)
    && (r.transitions != [] ==> r.transitions[|r.transitions| - 1].at <= r.lastEvaluated)
  }

  lemma AdvancedAccounts(r: Record, beats: seq<int>, now: int)
    requires Accounts(r, beats) && r.lastEvaluated <= now
    ensures Advanced(r, now) == r.(observedMs := now - r.firstSeen, lastEvaluated := now,
                                   healthyMs := Measure(beats, r.firstSeen, now))
  {
    OverlapIsMeasure(beats, r.lastSeen, r.lastEvaluated, now);
    MeasureSplits(beats, r.firstSeen, r.lastEvaluated, now);
  }

  lemma StepAccounts(r: Record, beats: seq<int>, event: Event, limit: nat)
    requires Accounts(r, beats) && r.lastEvaluated <= event.at
    ensures Accounts(Step(Some(r), event, limit).value, if event.Beat? then beats + [event.at] else beats)
    ensures Step(Some(r), event, limit).value.lastEvaluated == event.at
    ensures Step(Some(r), event, limit).value.firstSeen == r.firstSeen
  {
    hide Measure;
    AdvancedAccounts(r, beats, event.at);
    LaterBeatsAddNothing(beats, event.at, r.firstSeen, event.at);
  }

  lemma MovedTrails(r: Record, status: Status, now: int, limit: nat)
    requires Trails(r) && limit >= 1 && r.lastEvaluated <= now
    ensures var m := Moved(r, status, now, limit);
      && Trail(m.transitions) && m.status == status
      && (m.transitions == [] ==> m.status == Healthy)
      && (m.transitions != [] ==>
        m.transitions[|m.transitions| - 1].to == status && m.transitions[|m.transitions| - 1].at <= now)
      && |m.transitions| <= Max(limit, |r.transitions|)
  {
    var grown := r.transitions + [Transition(r.status, status, now)];
    if r.status != status {
      assert Trail(grown);
      assert Trail(Last(grown, limit));
    }
  }

  lemma StepTrails(r: Record, event: Event, limit: nat)
    requires Trails(r) && limit >= 1 && r.lastEvaluated <= event.at && |r.transitions| <= limit
    ensures Trails(Step(Some(r), event, limit).value) && |Step(Some(r), event, limit).value.transitions| <= limit
  {
    hide Trail, Last;
    match event
    case Beat(now) =>
      MovedTrails(Advanced(r, now).(lastSeen := now), Healthy, now, limit);
    case Tick(now) =>
      MovedTrails(Advanced(r, now), StatusFor(r.lastSeen, now), now, limit);
  }

  lemma {:induction false} EveryRunAccounts(events: seq<Event>, limit: nat)
    requires InOrder(events) && limit >= 1
    ensures After(events, limit).None? <==> Beats(events) == []
    ensures After(events, limit).Some? ==>
      var r := After(events, limit).value;
      && Accounts(r, Beats(events)) && Trails(r) && |r.transitions| <= limit
      && r.lastEvaluated == events[|events| - 1].at && r.firstSeen == Beats(events)[0]
  {
    if events != [] {
      var last := |events| - 1;
      var before := events[..last];
      EveryRunAccounts(before, limit);
      if After(before, limit).Some? {
        var r := After(before, limit).value;
        assert before[last - 1].at <= events[last].at;
        StepAccounts(r, Beats(before), events[last], limit);
        StepTrails(r, events[last], limit);
      }
    }
  }

  /** An exact report: the healthy time is the measure of the windows after the
      beats, the observed time is the time since the first beat, and the status is
      that of the last beat's age. */
  ghost predicate Exact(events: seq<Event>, u: Uptime, limit: nat, now: int) {
    var beats := Beats(events);
    && beats != []
    && u.firstSeen == beats[0] && u.observedMs == now - beats[0]
    && u.healthyMs == Measure(beats, beats[0], now)
    && u.lastSeenMsAgo == now - beats[|beats| - 1] && u.status == StatusFor(beats[|beats| - 1], now)
    && u.uptimeHundredths == Hundredths(Measure(beats, beats[0], now), now - beats[0])
    && Trail(u.transitions) && |u.transitions| <= limit
  }

  /** With a nondecreasing clock every report is exact, however many ticks there were. */
  lemma ReportIsExact(events: seq<Event>, limit: nat, now: int)
    requires InOrder(events) && limit >= 1 && Beats(events) != []
    requires forall k :: 0 <= k < |events| ==> events[k].at <= now
    ensures After(events, limit).Some?
    ensures Exact(events, Report(After(events, limit).value, now), limit, now)
  {
    hide Measure, Trail, HealthyOverlapMs, After, Beats, StatusFor, Hundredths, Accounts, InOrder;
    NoBeats();
    EveryRunAccounts(events, limit);
    LastBeat(events, limit);
    ReportTimes(After(events, limit).value, Beats(events), now);
  }

  lemma NoBeats()
    ensures Beats([]) == []
  {
  }

  /** What the times in a report come to. */
  lemma ReportTimes(r: Record, beats: seq<int>, now: int)
    requires Accounts(r, beats) && r.lastEvaluated <= now
    ensures Report(r, now).observedMs == now - r.firstSeen &&
      Report(r, now).healthyMs == Measure(beats, r.firstSeen, now)
    ensures Report(r, now).lastSeenMsAgo == now - r.lastSeen
  {
    hide Measure, HealthyOverlapMs, StatusFor, Hundredths;
    OverlapIsMeasure(beats, r.lastSeen, r.lastEvaluated, now);
    MeasureSplits(beats, r.firstSeen, r.lastEvaluated, now);
  }

  lemma {:induction false} LastBeat(events: seq<Event>, limit: nat)
    ensures After(events, limit).Some? <==> Beats(events) != []
    ensures After(events, limit).Some? ==> After(events, limit).value.lastSeen == Beats(events)[|Beats(events)| - 1]
  {
    if events != [] {
      LastBeat(events[..|events| - 1], limit);
    }
  }

  /** Ticks change nothing that is reported but the trail of transitions. */
  lemma TicksDoNotMatter(a: seq<Event>, b: seq<Event>, limit: nat, now: int)
    requires InOrder(a) && InOrder(b) && limit >= 1 && Beats(a) == Beats(b) != []
    requires forall k :: 0 <= k < |a| ==> a[k].at <= now
    requires forall k :: 0 <= k < |b| ==> b[k].at <= now
    ensures After(a, limit).Some? && After(b, limit).Some?
    ensures Report(After(a, limit).value, now)
         == Report(After(b, limit).value, now).(transitions := After(a, limit).value.transitions)
  {
    ReportIsExact(a, limit, now);
    ReportIsExact(b, limit, now);
  }

  lemma Scales(a: int, b: int, d: int)
    requires d > 0
    ensures a <= b ==> a * d <= b * d
  {
  }

  lemma QuotientIn(x: int, d: int, lo: int, hi: int)
    requires d > 0 && lo * d <= x < (hi + 1) * d
    ensures lo <= x / d <= hi
  {
    var q := x / d;
    assert q * d <= x < q * d + d;
    Scales(q + 1, lo, d);
    Scales(hi + 1, q, d);
  }

  /** The share is a percentage, and the whole when no time was missed. */
  lemma ShareInRange(beats: seq<int>, from: int, now: int)
    ensures 0 <= Hundredths(Measure(beats, from, now), now - from) <= 10000
    ensures Measure(beats, from, now) == Max(0, now - from) ==>
      Hundredths(Measure(beats, from, now), now - from) == 10000
  {
    hide Measure;
    var healthy, observed := Measure(beats, from, now), now - from;
    if observed > 0 {
      QuotientIn(20000 * healthy + observed, 2 * observed, 0, 10000);
      if healthy == observed {
        QuotientIn(20000 * healthy + observed, 2 * observed, 10000, 10000);
      }
    }
  }

  /** What a report calls a source: healthy within three seconds after one of its beats,
      offline once the last ten seconds hold none, degraded in between. */
  lemma StatusMeans(events: seq<Event>, limit: nat, now: int)
    requires InOrder(events) && limit >= 1 && Beats(events) != []
    requires forall k :: 0 <= k < |events| ==> events[k].at <= now
    ensures After(events, limit).Some?
    ensures var status := Report(After(events, limit).value, now).status;
      && (status == Healthy <==> exists b :: b in Beats(events) && now < b + 3000)
      && (status == Offline <==> forall b :: b in Beats(events) ==> b + 10000 <= now)
  {
    hide After, Beats, Accounts, InOrder, HealthyOverlapMs, Hundredths, Trails;
    NoBeats();
    EveryRunAccounts(events, limit);
    StatusOfLast(After(events, limit).value, Beats(events), now);
  }

  lemma StatusOfLast(r: Record, beats: seq<int>, now: int)
    requires Accounts(r, beats)
    ensures var status := Report(r, now).status;
      && (status == Healthy <==> exists b :: b in beats && now < b + 3000)
      && (status == Offline <==> forall b :: b in beats ==> b + 10000 <= now)
  {
    hide Measure, HealthyOverlapMs, Hundredths;
    assert r.lastSeen in beats;
  }

  /** The share is the healthy part of the observed time to the nearest hundredth of a
      percent, halves up. */
  lemma ShareIsNearest(healthy: int, observed: int)
    requires observed > 0
    ensures var share := Hundredths(healthy, observed);
      (2 * share - 1) * observed <= 20000 * healthy < (2 * share + 1) * observed
  {
    var x, d := 20000 * healthy + observed, 2 * observed;
    var share := x / d;
    assert share * d <= x < share * d + d;
    assert share * d == 2 * share * observed;
    assert (2 * share - 1) * observed == 2 * share * observed - observed;
    assert (2 * share + 1) * observed == 2 * share * observed + observed;
  }

  // --- The ring keeps the most recent changes ---

  lemma LastOfLast(all: seq<Transition>, limit: nat, more: Transition)
    requires limit >= 1
    ensures Last(Last(all, limit) + [more], limit) == Last(all + [more], limit)
  {
  }

  /** Whatever the limit, the retained transitions are the latest of all those
      there were, and nothing else about the record depends on it. */
  lemma {:induction false} RingKeepsLatest(events: seq<Event>, limit: nat, all: nat)
    requires limit >= 1 && all >= |events|
    ensures After(events, limit).Some? <==> After(events, all).Some?
    ensures After(events, all).Some? ==>
      var full := After(events, all).value;
      |full.transitions| <= |events| &&
        After(events, limit).value == full.(transitions := Last(full.transitions, limit))
  {
    if events != [] {
      var before, e := events[..|events| - 1], events[|events| - 1];
      RingKeepsLatest(before, limit, all);
      if After(before, all).Some? {
        var full := After(before, all).value;
        var status := if e.Beat? then Healthy else StatusFor(full.lastSeen, e.at);
        LastOfLast(full.transitions, limit, Transition(full.status, status, e.at));
      }
    }
  }

  lemma {:induction false} RingIsBounded(events: seq<Event>, limit: nat)
    requires limit >= 1
    ensures After(events, limit).Some? ==> |After(events, limit).value.transitions| <= limit
  {
    if events != [] {
      RingIsBounded(events[..|events| - 1], limit);
    }
  }

  // --- The monitor itself ---

  datatype Call = Heartbeat(source: string, at: int) | Evaluate(at: int)

  ghost function With(events: seq<Event>, call: Call, source: string): seq<Event> {
    match call
    case Heartbeat(s, at) => if s == source then events + [Beat(at)] else events
    case Evaluate(at) => events + [Tick(at)]
  }

  /** What the calls were to one source. */
  ghost function EventsOf(calls: seq<Call>, source: string): seq<Event> {
    if calls == [] then []
    else With(EventsOf(calls[..|calls| - 1], source), calls[|calls| - 1], source)
  }

  lemma EventsOfOneMore(calls: seq<Call>, call: Call, source: string)
    ensures EventsOf(calls + [call], source) == With(EventsOf(calls, source), call, source)
  {
    assert (calls + [call])[..|calls|] == calls;
  }

  lemma AfterOneMore(events: seq<Event>, event: Event, limit: nat)
    ensures After(events + [event], limit) == Step(After(events, limit), event, limit)
  {
    assert (events + [event])[..|events|] == events;
  }

  lemma AdvancedKeeps(r: Record, now: int)
    ensures Advanced(r, now).lastSeen == r.lastSeen && Advanced(r, now).transitions == r.transitions
  {
    hide HealthyOverlapMs;
  }

  /** A round is a tick for every source. */
  lemma TickForAll(calls: seq<Call>, now: int, source: string, limit: nat)
    ensures After(EventsOf(calls + [Call.Evaluate(now)], source), limit) ==
      Step(After(EventsOf(calls, source), limit), Tick(now), limit)
  {
    hide After, EventsOf, Step;
    EventsOfOneMore(calls, Call.Evaluate(now), source);
    AfterOneMore(EventsOf(calls, source), Tick(now), limit);
  }

  ghost predicate ClockForward(calls: seq<Call>) {
    forall j, k :: 0 <= j < k < |calls| ==> calls[j].at <= calls[k].at
  }

  lemma {:induction false} EventsInOrder(calls: seq<Call>, source: string, now: int)
    requires ClockForward(calls) && forall k :: 0 <= k < |calls| ==> calls[k].at <= now
    ensures InOrder(EventsOf(calls, source))
    ensures forall k :: 0 <= k < |EventsOf(calls, source)| ==> EventsOf(calls, source)[k].at <= now
  {
    if calls != [] {
      EventsInOrder(calls[..|calls| - 1], source, calls[|calls| - 1].at);
    }
  }

  class Tracked {
    var lastSeen: int
    var firstSeen: int
    var status: Status
    var lastEvaluated: int
    var healthyMs: int
    var observedMs: int
    var transitions: seq<Transition>

    constructor (now: int)
      ensures State() == Record(now, now, Healthy, now, 0, 0, [])
    {
      lastSeen, firstSeen, lastEvaluated := now, now, now;
      status := Healthy;
      healthyMs, observedMs, transitions := 0, 0, [];
    }

    function State(): Record
      reads this
    {
      Record(lastSeen, firstSeen, status, lastEvaluated, healthyMs, observedMs, transitions)
    }
  }

  class Monitor {
    var sources: map<string, Tracked>
    const historyLimit: nat
    ghost var made: set<Tracked>
    /** Every call so far. */
    ghost var calls: seq<Call>

    ghost predicate Separate()
      reads this
    {
      && historyLimit >= 1
      && (forall n :: n in sources ==> sources[n] in made)
      && (forall n, m :: n in sources && m in sources && n != m ==> sources[n] != sources[m])
    }

    /** What is known of a source, as a value. */
    ghost function Known(name: string): Option<Record>
      reads this, made
      requires Separate()
    {
      if name in sources then Some(sources[name].State()) else None
    }

    ghost predicate Valid()
      reads this, made
    {
      Separate() && forall n :: Known(n) == After(EventsOf(calls, n), historyLimit)
    }

    constructor (limit: int := DEFAULT_HISTORY_LIMIT)
      ensures Valid() && calls == [] && made == {} && historyLimit == Max(1, limit)
    {
      historyLimit := Max(1, limit);
      sources, made, calls := map[], {}, [];
    }

    method Advance(tracked: Tracked, now: int)
      modifies tracked
      ensures tracked.State() == Advanced(old(tracked.State()), now)
    {
      var elapsed := now - tracked.lastEvaluated;
      if elapsed <= 0 {
        return;
      }
      tracked.observedMs := tracked.observedMs + elapsed;
      tracked.healthyMs := tracked.healthyMs + HealthyOverlapMs(tracked.lastSeen, tracked.lastEvaluated, now);
      tracked.lastEvaluated := now;
    }

    method TransitionTo(tracked: Tracked, status: Status, now: int)
      requires |tracked.transitions| <= historyLimit
      modifies tracked
      ensures tracked.State() == Moved(old(tracked.State()), status, now, historyLimit)
    {
      if tracked.status == status {
        return;
      }
      tracked.transitions := tracked.transitions + [Transition(tracked.status, status, now)];
      if |tracked.transitions| > historyLimit {
        tracked.transitions := tracked.transitions[1..];
      }
      tracked.status := status;
    }

    /** One beat for `source`, and nothing for any other. */
    method Heartbeat(source: string, now: int)
      requires Valid()
      modifies this, made
      ensures Valid() && calls == old(calls) + [Call.Heartbeat(source, now)] && fresh(made - old(made))
    {
      hide After, EventsOf;
      RingIsBounded(EventsOf(calls, source), historyLimit);
      assert Known(source) == After(EventsOf(calls, source), historyLimit);
      if source !in sources {
        var tracked := new Tracked(now);
        sources := sources[source := tracked];
        made := made + {tracked};
      } else {
        var tracked := sources[source];
        Advance(tracked, now);
        tracked.lastSeen := now;
        TransitionTo(tracked, Healthy, now);
      }
      calls := calls + [Call.Heartbeat(source, now)];
      assert Known(source) == Step(old(Known(source)), Beat(now), historyLimit);
      forall n
        ensures Known(n) == After(EventsOf(calls, n), historyLimit)
      {
        assert old(Known(n)) == After(EventsOf(old(calls), n), historyLimit);
        EventsOfOneMore(old(calls), Call.Heartbeat(source, now), n);
        if n == source {
          AfterOneMore(EventsOf(old(calls), n), Beat(now), historyLimit);
        } else {
          assert Known(n) == old(Known(n));
        }
      }
    }

    /** One tick for every source there is. */
    method Evaluate(now: int)
      requires Valid()
      modifies this, made
      ensures Valid() && calls == old(calls) + [Call.Evaluate(now)] && made == old(made)
    {
      hide After, EventsOf, Moved, Advanced, StatusFor, HealthyOverlapMs;
      var left := sources.Keys;
      while left != {}
        invariant left <= sources.Keys && Separate()
        invariant sources == old(sources) && made == old(made) && calls == old(calls)
        invariant forall n :: n in left ==> Known(n) == old(Known(n))
        invariant forall n :: n !in left ==> Known(n) == Step(old(Known(n)), Tick(now), historyLimit)
      {
        var n :| n in left;
        var tracked := sources[n];
        assert old(Known(n)) == After(EventsOf(calls, n), historyLimit);
        RingIsBounded(EventsOf(calls, n), historyLimit);
        AdvancedKeeps(tracked.State(), now);
        Advance(tracked, now);
        TransitionTo(tracked, StatusFor(tracked.lastSeen, now), now);
        left := left - {n};
      }
      calls := calls + [Call.Evaluate(now)];
      forall n
        ensures Known(n) == After(EventsOf(calls, n), historyLimit)
      {
        assert old(Known(n)) == After(EventsOf(old(calls), n), historyLimit);
        TickForAll(old(calls), now, n, historyLimit);
      }
    }

    /** The report of every source in the given order of their names, exact whenever
        the clock has not gone back. */
    method Uptimes(now: int, sorted: seq<string>) returns (reports: seq<(string, Uptime)>)
      requires Valid() && Distinct(sorted) && forall n :: n in sorted <==> n in sources
      ensures forall n :: n in sorted <==> Beats(EventsOf(calls, n)) != []
      ensures |reports| == |sorted|
      ensures forall k :: 0 <= k < |sorted| ==> reports[k].0 == sorted[k]
      ensures forall k :: 0 <= k < |sorted| ==>
        Some(reports[k].1) == ReportOf(After(EventsOf(calls, sorted[k]), historyLimit), now)
      ensures ClockForward(calls) && (forall k :: 0 <= k < |calls| ==> calls[k].at <= now) ==>
        forall k :: 0 <= k < |sorted| ==> Exact(EventsOf(calls, sorted[k]), reports[k].1, historyLimit, now)
    {
      hide After, EventsOf, Report, Exact, Beats;
      reports := [];
      for k := 0 to |sorted|
        invariant |reports| == k
        invariant forall j :: 0 <= j < k ==> reports[j] == (sorted[j], Report(sources[sorted[j]].State(), now))
      {
        assert sorted[k] in sorted;
        reports := reports + [(sorted[k], Report(sources[sorted[k]].State(), now))];
      }
      forall n
        ensures n in sorted <==> Beats(EventsOf(calls, n)) != []
      {
        assert Known(n) == After(EventsOf(calls, n), historyLimit);
        LastBeat(EventsOf(calls, n), historyLimit);
      }
      forall k | 0 <= k < |sorted|
        ensures Some(reports[k].1) == ReportOf(After(EventsOf(calls, sorted[k]), historyLimit), now)
      {
        assert sorted[k] in sorted;
        assert Known(sorted[k]) == After(EventsOf(calls, sorted[k]), historyLimit);
      }
      if ClockForward(calls) && forall k :: 0 <= k < |calls| ==> calls[k].at <= now {
        forall k | 0 <= k < |sorted|
          ensures Exact(EventsOf(calls, sorted[k]), reports[k].1, historyLimit, now)
        {
          assert sorted[k] in sorted;
          EventsInOrder(calls, sorted[k], now);
          ReportIsExact(EventsOf(calls, sorted[k]), historyLimit, now);
        }
      }
    }
  }
}
