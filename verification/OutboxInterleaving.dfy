/** The outbox with its calls interleaved at every await: any number of publishes
    under way at once, and the periodic flusher in between. Events are named by the
    order of their publication, 0, 1, 2 and on. */
module OutboxInterleaving {
  import opened Wrappers

  /** Where a publish under way is suspended: in its own drain, about to look at the
      queue again, or in the attempt to send its event directly. */
  datatype Phase = Draining | Resuming | Sending

  datatype State = State(
    next: nat,                // the number of events published
    busy: map<nat, Phase>,    // the events whose publish is under way
    queue: seq<nat>,
    flight: Option<nat>,      // the event the drain is trying to deliver
    delivered: seq<nat>,
    evicted: seq<nat>)

  datatype Action = Publish | Tick | AttemptEnds(ok: bool) | Resume(event: nat) | SendEnds(event: nat, ok: bool)

  const INITIAL := State(0, map[], [], None, [], [])

  predicate Enabled(s: State, a: Action) {
    match a
    case Publish => true
    case Tick => true
    case AttemptEnds(_) => s.flight.Some?
    case Resume(e) => e in s.busy && s.busy[e].Resuming?
    case SendEnds(e, _) => e in s.busy && s.busy[e].Sending?
  }

  /** The drain looks at the queue: it tries the head, or is over. */
  function Drain(s: State): State {
    if s.queue != [] then s.(flight := Some(s.queue[0])) else DrainOver(s)
  }

  /** The publish whose drain this was goes on. */
  function Released(busy: map<nat, Phase>): map<nat, Phase> {
    map e | e in busy :: if busy[e].Draining? then Resuming else busy[e]
  }

  function DrainOver(s: State): State {
    s.(flight := None, busy := Released(s.busy))
  }

  function Evict(s: State): State
    requires s.queue != []
  {
    s.(queue := s.queue[1..], evicted := s.evicted + [s.queue[0]])
  }

  function Push(s: State, e: nat): State {
    s.(queue := s.queue + [e], busy := s.busy - {e})
  }

  /** The publish of `e` ends with `e` in the queue. */
  function Enqueue(s: State, e: nat, capacity: nat): State {
    Push(if |s.queue| >= capacity && s.queue != [] then Evict(s) else s, e)
  }

  function Begin(s: State, phase: Phase): State {
    s.(next := s.next + 1, busy := s.busy[s.next := phase])
  }

  function Next(s: State, a: Action, capacity: nat): State
    requires Enabled(s, a)
  {
    match a
    case Publish =>
      if s.queue == [] then Begin(s, Sending)
      else if s.flight.Some? then Begin(s, Resuming)
      else Drain(Begin(s, Draining))
    case Tick =>
      if s.flight.Some? then s else Drain(s)
    case AttemptEnds(ok) =>
      if !ok then DrainOver(s)
      else Drain(s.(delivered := s.delivered + [s.flight.value], queue := if s.queue == [] then [] else s.queue[1..]))
    case Resume(e) =>
      if s.queue == [] then s.(busy := s.busy[e := Sending]) else Enqueue(s, e, capacity)
    case SendEnds(e, ok) =>
      if ok then s.(delivered := s.delivered + [e], busy := s.busy - {e}) else Enqueue(s, e, capacity)
  }

  // --- What should be kept ---

  predicate Arrived(s: State, n: nat) {
    n in s.delivered || n in s.queue || n in s.evicted
  }

  ghost predicate Ascending(events: seq<nat>) {
    forall j, k :: 0 <= j < k < |events| ==> events[j] < events[k]
  }

  ghost predicate Before(xs: seq<nat>, ys: seq<nat>) {
    forall x, y :: x in xs && y in ys ==> x < y
  }

  /** What was delivered, followed by the queue, is in order of publication, and so
      is what was dropped; and every event whose publish has ended is delivered,
      queued or dropped, one of the three only. */
  ghost predicate InOrder(s: State) {
    && Ascending(s.delivered) && Ascending(s.evicted) && Ascending(s.queue)
    && Before(s.delivered, s.queue) && Before(s.evicted, s.queue)
    && (forall n: nat :: Arrived(s, n) <==> n < s.next && n !in s.busy)
    && (forall n :: !(n in s.delivered && n in s.evicted))
  }

  /** The event in flight is no longer at the head of the queue. */
  predicate Stale(s: State) {
    s.flight.Some? && (s.queue == [] || s.queue[0] != s.flight.value)
  }

  predicate StaleSuccess(s: State, a: Action) {
    a == AttemptEnds(true) && Stale(s)
  }

  /** Every publish that has ended was older than `e`. */
  ghost predicate Newest(s: State, e: nat) {
    forall n: nat :: Arrived(s, n) ==> n < e
  }

  /** Nothing newer than `e` was delivered, and nothing older waits. */
  ghost predicate Fits(s: State, e: nat) {
    Before(s.delivered, [e]) && Before([e], s.queue)
  }

  /** The condition on a step: a direct attempt succeeds only when nothing older is
      queued and nothing newer delivered, an event is queued only when no newer
      publish has ended, and no attempt succeeds whose event was evicted meanwhile. */
  ghost predicate InTurn(s: State, a: Action) {
    match a
    case Resume(e) => s.queue != [] ==> Newest(s, e)
    case SendEnds(e, ok) => if ok then Fits(s, e) else Newest(s, e)
    case _ => !StaleSuccess(s, a)
  }

  ghost predicate Inv(s: State, capacity: nat) {
    && InOrder(s) && |s.queue| <= capacity
    && (forall e :: e in s.busy ==> e < s.next && (s.busy[e].Draining? ==> s.flight.Some?))
    && (s.flight.Some? ==> s.queue != [] && (s.flight.value == s.queue[0] || s.flight.value in s.evicted))
  }

  lemma AscendingGrows(events: seq<nat>, n: nat)
    ensures Ascending(events + [n]) <==> Ascending(events) && Before(events, [n])
  {
    if Ascending(events + [n]) {
      assert forall k :: 0 <= k < |events| ==> (events + [n])[k] == events[k];
      assert (events + [n])[|events|] == n;
    } else if Before(events, [n]) {
      assert forall k :: 0 <= k < |events| ==> events[k] in events && n in [n];
    }
  }

  lemma HeadIsFirst(events: seq<nat>)
    requires events != [] && Ascending(events)
    ensures Ascending(events[1..]) && Before([events[0]], events[1..])
    ensures forall n :: n in events <==> n == events[0] || n in events[1..]
  {
    assert events == [events[0]] + events[1..];
  }

  lemma EvictKeeps(s: State)
    requires InOrder(s) && s.queue != []
    ensures InOrder(Evict(s)) && forall n: nat :: Arrived(Evict(s), n) <==> Arrived(s, n)
  {
    var h := s.queue[0];
    HeadIsFirst(s.queue);
    AscendingGrows(s.evicted, h);
    assert h in s.queue && h in [h];
    assert forall n :: n in Evict(s).evicted <==> n in s.evicted || n == h;
    forall n: nat
      ensures Arrived(Evict(s), n) <==> Arrived(s, n)
    {
      assert n in s.queue <==> n == h || n in Evict(s).queue;
    }
    assert forall n: nat :: Arrived(Evict(s), n) <==> n < s.next && n !in s.busy;
  }

  lemma PushKeepsIff(s: State, e: nat)
    requires InOrder(s) && e in s.busy && e < s.next
    ensures InOrder(Push(s, e)) <==> Newest(s, e)
  {
    var s' := Push(s, e);
    AscendingGrows(s.queue, e);
    assert forall n :: n in s'.queue <==> n in s.queue || n == e;
    assert e in s'.queue && e in [e];
    assert forall n: nat :: Arrived(s', n) <==> Arrived(s, n) || n == e;
    if InOrder(s') {
      forall n: nat | Arrived(s, n)
        ensures n < e
      {
        assert n in s.queue ==> n in [e] || n < e;
      }
    } else if Newest(s, e) {
      assert forall n :: n in s.queue || n in s.delivered || n in s.evicted ==> Arrived(s, n);
    }
  }

  /** Queueing an event keeps everything exactly when it is the newest to arrive. */
  lemma EnqueueKeepsIff(s: State, e: nat, capacity: nat)
    requires Inv(s, capacity) && capacity >= 1 && e in s.busy && !s.busy[e].Draining?
    ensures Newest(s, e) ==> Inv(Enqueue(s, e, capacity), capacity)
    ensures InOrder(Enqueue(s, e, capacity)) <==> Newest(s, e)
  {
    hide Ascending, Before;
    if |s.queue| >= capacity {
      EvictKeeps(s);
      PushKeepsIff(Evict(s), e);
    } else {
      PushKeepsIff(s, e);
    }
  }

  lemma SendKeepsIff(s: State, e: nat, capacity: nat)
    requires Inv(s, capacity) && e in s.busy && s.busy[e].Sending?
    ensures Fits(s, e) ==> Inv(Next(s, SendEnds(e, true), capacity), capacity)
    ensures InOrder(Next(s, SendEnds(e, true), capacity)) ==> Fits(s, e)
  {
    var s' := Next(s, SendEnds(e, true), capacity);
    AscendingGrows(s.delivered, e);
    assert forall n :: n in s'.delivered <==> n in s.delivered || n == e;
    assert e in s'.delivered;
    assert forall n: nat :: Arrived(s', n) <==> Arrived(s, n) || n == e;
  }

  lemma DrainOverKeeps(s: State, capacity: nat)
    requires Inv(s, capacity)
    ensures Inv(DrainOver(s), capacity)
  {
    assert forall n: nat :: Arrived(DrainOver(s), n) <==> Arrived(s, n);
  }

  lemma AttemptKeeps(s: State, capacity: nat)
    requires Inv(s, capacity) && s.flight.Some? && !Stale(s)
    ensures Inv(Next(s, AttemptEnds(true), capacity), capacity)
  {
    var h, rest := s.queue[0], s.queue[1..];
    var s' := s.(delivered := s.delivered + [h], queue := rest);
    HeadIsFirst(s.queue);
    AscendingGrows(s.delivered, h);
    assert h in s.queue && h in [h];
    assert forall n :: n in s'.delivered <==> n in s.delivered || n == h;
    assert forall n: nat :: Arrived(s', n) <==> Arrived(s, n);
    assert InOrder(s');
    var s'' := Next(s, AttemptEnds(true), capacity);
    assert forall n: nat :: Arrived(s'', n) <==> Arrived(s', n);
  }

  lemma PublishKeeps(s: State, capacity: nat)
    requires Inv(s, capacity)
    ensures Inv(Next(s, Publish, capacity), capacity)
  {
    var s' := Next(s, Publish, capacity);
    assert forall n: nat :: Arrived(s', n) <==> Arrived(s, n);
  }

  lemma TickKeeps(s: State, capacity: nat)
    requires Inv(s, capacity)
    ensures Inv(Next(s, Tick, capacity), capacity)
  {
    if s.flight.None? && s.queue == [] {
      DrainOverKeeps(s, capacity);
    } else {
      assert forall n: nat :: Arrived(Next(s, Tick, capacity), n) <==> Arrived(s, n);
    }
  }

  lemma ResumeKeepsIff(s: State, e: nat, capacity: nat)
    requires Inv(s, capacity) && capacity >= 1 && Enabled(s, Resume(e))
    ensures InTurn(s, Resume(e)) ==> Inv(Next(s, Resume(e), capacity), capacity)
    ensures InOrder(Next(s, Resume(e), capacity)) ==> InTurn(s, Resume(e))
  {
    if s.queue != [] {
      EnqueueKeepsIff(s, e, capacity);
    } else {
      assert forall n: nat :: Arrived(Next(s, Resume(e), capacity), n) <==> Arrived(s, n);
    }
  }

  /** Gone without a trace: published, yet neither delivered, dropped nor pending. */
  predicate Lost(s: State, n: nat) {
    n < s.next && n !in s.busy && !Arrived(s, n) && s.flight != Some(n)
  }

  /** When a stale attempt succeeds, the drain removes the wrong event: the one at
      the head is lost, and the one delivered had been reported as dropped. */
  lemma StaleSuccessLoses(s: State, capacity: nat)
    requires Inv(s, capacity) && Stale(s)
    ensures Lost(Next(s, AttemptEnds(true), capacity), s.queue[0])
    ensures !InOrder(Next(s, AttemptEnds(true), capacity))
  {
    var h, f := s.queue[0], s.flight.value;
    var s' := Next(s, AttemptEnds(true), capacity);
    assert s'.delivered[|s.delivered|] == f;
    assert f in s'.delivered && f in s'.evicted;
    assert h in s.queue && Arrived(s, h);
    assert forall n :: n in s'.delivered <==> n in s.delivered || n == f;
  }

  /** A step keeps the order if and only if it is taken in turn. */
  lemma StepKeepsIff(s: State, a: Action, capacity: nat)
    requires Inv(s, capacity) && capacity >= 1 && Enabled(s, a)
    ensures InTurn(s, a) ==> Inv(Next(s, a, capacity), capacity)
    ensures InOrder(Next(s, a, capacity)) <==> InTurn(s, a)
  {
    hide InOrder, Newest, Fits;
    assert forall s: State :: Inv(s, capacity) ==> InOrder(s);
    match a
    case Publish => PublishKeeps(s, capacity);
    case Tick => TickKeeps(s, capacity);
    case AttemptEnds(ok) =>
      if !ok {
        DrainOverKeeps(s, capacity);
      } else if Stale(s) {
        StaleSuccessLoses(s, capacity);
      } else {
        AttemptKeeps(s, capacity);
      }
    case Resume(e) => ResumeKeepsIff(s, e, capacity);
    case SendEnds(e, ok) =>
      if ok {
        SendKeepsIff(s, e, capacity);
      } else {
        EnqueueKeepsIff(s, e, capacity);
      }
  }

  // --- Runs ---

  ghost predicate Possible(s: State, actions: seq<Action>, capacity: nat)
    decreases |actions|
  {
    actions != [] ==> Enabled(s, actions[0]) && Possible(Next(s, actions[0], capacity), actions[1..], capacity)
  }

  function Run(s: State, actions: seq<Action>, capacity: nat): State
    requires Possible(s, actions, capacity)
    decreases |actions|
  {
    if actions == [] then s else Run(Next(s, actions[0], capacity), actions[1..], capacity)
  }

  /** In order at every moment of the run. */
  ghost predicate AlwaysInOrder(s: State, actions: seq<Action>, capacity: nat)
    requires Possible(s, actions, capacity)
    decreases |actions|
  {
    InOrder(s) && (actions != [] ==> AlwaysInOrder(Next(s, actions[0], capacity), actions[1..], capacity))
  }

  ghost predicate AlwaysInTurn(s: State, actions: seq<Action>, capacity: nat)
    requires Possible(s, actions, capacity)
    decreases |actions|
  {
    actions != [] ==>
      InTurn(s, actions[0]) && AlwaysInTurn(Next(s, actions[0], capacity), actions[1..], capacity)
  }

  lemma {:induction false} OrderFrom(s: State, actions: seq<Action>, capacity: nat)
    requires Inv(s, capacity) && capacity >= 1 && Possible(s, actions, capacity)
    ensures AlwaysInOrder(s, actions, capacity) <==> AlwaysInTurn(s, actions, capacity)
    ensures AlwaysInTurn(s, actions, capacity) ==> Inv(Run(s, actions, capacity), capacity)
    decreases |actions|
  {
    hide InOrder, InTurn, Next, Enabled;
    if actions != [] {
      StepKeepsIff(s, actions[0], capacity);
      if InTurn(s, actions[0]) {
        OrderFrom(Next(s, actions[0], capacity), actions[1..], capacity);
      }
    }
  }

  /** However publishes, drains and ticks overlap: events are conserved and in order
      throughout a run exactly when every step of it is taken in turn. */
  lemma OrderExact(actions: seq<Action>, capacity: nat)
    requires capacity >= 1 && Possible(INITIAL, actions, capacity)
    ensures AlwaysInOrder(INITIAL, actions, capacity) <==> AlwaysInTurn(INITIAL, actions, capacity)
    ensures AlwaysInTurn(INITIAL, actions, capacity) ==> |Run(INITIAL, actions, capacity).queue| <= capacity
  {
    OrderFrom(INITIAL, actions, capacity);
  }

  // --- One publish at a time ---

  /** A publish begins only when no other is under way. */
  predicate Alone(s: State, a: Action) {
    a.Publish? ==> s.busy == map[]
  }

  ghost predicate OneAtATime(s: State, actions: seq<Action>, capacity: nat)
    requires Possible(s, actions, capacity)
    decreases |actions|
  {
    actions != [] ==> Alone(s, actions[0]) && OneAtATime(Next(s, actions[0], capacity), actions[1..], capacity)
  }

  ghost predicate NoStaleSuccess(s: State, actions: seq<Action>, capacity: nat)
    requires Possible(s, actions, capacity)
    decreases |actions|
  {
    actions != [] ==>
      !StaleSuccess(s, actions[0]) && NoStaleSuccess(Next(s, actions[0], capacity), actions[1..], capacity)
  }

  /** At most the latest event is under way, and it is sent only past an empty queue. */
  ghost predicate Single(s: State) {
    forall e :: e in s.busy ==> e + 1 == s.next && (s.busy[e].Sending? ==> s.queue == [])
  }

  lemma AloneIsInTurn(s: State, a: Action, capacity: nat)
    requires Inv(s, capacity) && capacity >= 1 && Single(s)
    requires Enabled(s, a) && Alone(s, a) && !StaleSuccess(s, a)
    ensures InTurn(s, a) && Single(Next(s, a, capacity))
  {
    assert forall n: nat :: Arrived(s, n) ==> n < s.next && n !in s.busy;
    if a.SendEnds? {
      assert forall n :: n in s.delivered ==> Arrived(s, n);
    }
  }

  lemma {:induction false} OneAtATimeFrom(s: State, actions: seq<Action>, capacity: nat)
    requires Inv(s, capacity) && capacity >= 1 && Single(s) && Possible(s, actions, capacity)
    requires OneAtATime(s, actions, capacity)
    ensures AlwaysInTurn(s, actions, capacity) <==> NoStaleSuccess(s, actions, capacity)
    decreases |actions|
  {
    hide InOrder, Single, Next, Enabled, Newest, Fits;
    if actions != [] {
      if !StaleSuccess(s, actions[0]) {
        StepKeepsIff(s, actions[0], capacity);
        AloneIsInTurn(s, actions[0], capacity);
        OneAtATimeFrom(Next(s, actions[0], capacity), actions[1..], capacity);
      }
    }
  }

  /** With publishes made one at a time, the outbox conserves events, in order,
      exactly when no attempt succeeds whose event was evicted while in flight. */
  lemma ConservationExact(actions: seq<Action>, capacity: nat)
    requires capacity >= 1 && Possible(INITIAL, actions, capacity) && OneAtATime(INITIAL, actions, capacity)
    ensures AlwaysInOrder(INITIAL, actions, capacity) <==> NoStaleSuccess(INITIAL, actions, capacity)
  {
    OrderFrom(INITIAL, actions, capacity);
    OneAtATimeFrom(INITIAL, actions, capacity);
  }

  // --- No eviction under an attempt ---

  /** The step puts an event in a full queue. */
  predicate Evicts(s: State, a: Action, capacity: nat) {
    && (a.Resume? || (a.SendEnds? && !a.ok)) && s.queue != [] && |s.queue| >= capacity
  }

  /** A flight goes stale only when something is evicted under it. */
  lemma StaleNeedsEviction(s: State, a: Action, capacity: nat)
    requires Inv(s, capacity) && !Stale(s) && Enabled(s, a) && Stale(Next(s, a, capacity))
    ensures s.flight.Some? && Evicts(s, a, capacity)
  {
  }

  /** Publishes one at a time, and nothing evicted while an attempt is in flight. */
  ghost predicate Calm(s: State, actions: seq<Action>, capacity: nat)
    requires Possible(s, actions, capacity)
    decreases |actions|
  {
    actions != [] ==>
      && Alone(s, actions[0]) && !(s.flight.Some? && Evicts(s, actions[0], capacity))
      && Calm(Next(s, actions[0], capacity), actions[1..], capacity)
  }

  lemma {:induction false} CalmIsInTurn(s: State, actions: seq<Action>, capacity: nat)
    requires Inv(s, capacity) && capacity >= 1 && Single(s) && !Stale(s)
    requires Possible(s, actions, capacity) && Calm(s, actions, capacity)
    ensures AlwaysInTurn(s, actions, capacity)
    decreases |actions|
  {
    hide InOrder, Stale, Single, Evicts, Next, Enabled, InTurn;
    if actions != [] {
      var s' := Next(s, actions[0], capacity);
      AloneIsInTurn(s, actions[0], capacity);
      StepKeepsIff(s, actions[0], capacity);
      if Stale(s') {
        StaleNeedsEviction(s, actions[0], capacity);
      }
      CalmIsInTurn(s', actions[1..], capacity);
    }
  }

  /** In a calm run every event is delivered, pending or reported as dropped, in
      order, and the queue stays within its capacity. */
  lemma CalmRunsConserve(actions: seq<Action>, capacity: nat)
    requires capacity >= 1 && Possible(INITIAL, actions, capacity) && Calm(INITIAL, actions, capacity)
    ensures AlwaysInOrder(INITIAL, actions, capacity)
    ensures |Run(INITIAL, actions, capacity).queue| <= capacity
  {
    CalmIsInTurn(INITIAL, actions, capacity);
    OrderFrom(INITIAL, actions, capacity);
  }

  // --- When a publish may begin ---

  ghost predicate Breaks(s: State, actions: seq<Action>, capacity: nat) {
    Possible(s, actions, capacity) && Calm(s, actions, capacity) && !InOrder(Run(s, actions, capacity))
  }

  /** What can happen next, without another publish, when the latest event is not the
      only one under way: the later of the two ends first. */
  function LaterFirst(s: State, older: nat, later: nat): seq<Action>
    requires older in s.busy
  {
    if s.queue == [] then
      [SendEnds(later, true)] + (if s.busy[older].Resuming? then [Resume(older)] else []) + [SendEnds(older, true)]
    else
      [AttemptEnds(false), Resume(later)] + [if s.busy[older].Sending? then SendEnds(older, false) else Resume(older)]
  }

  lemma OneStep(s: State, a: Action, rest: seq<Action>, capacity: nat)
    requires Enabled(s, a) && Possible(Next(s, a, capacity), rest, capacity)
    ensures Possible(s, [a] + rest, capacity)
    ensures Run(s, [a] + rest, capacity) == Run(Next(s, a, capacity), rest, capacity)
  {
    assert ([a] + rest)[1..] == rest;
  }

  lemma BreaksLater(s: State, a: Action, rest: seq<Action>, capacity: nat)
    requires Enabled(s, a) && Breaks(Next(s, a, capacity), rest, capacity)
    requires Alone(s, a) && !(s.flight.Some? && Evicts(s, a, capacity))
    ensures Breaks(s, [a] + rest, capacity)
  {
    OneStep(s, a, rest, capacity);
    assert ([a] + rest)[1..] == rest;
  }

  lemma BreaksAtLast(s: State, a: Action, capacity: nat)
    requires Inv(s, capacity) && capacity >= 1 && Enabled(s, a) && !InTurn(s, a)
    requires Alone(s, a) && s.flight.None?
    ensures Breaks(s, [a], capacity)
  {
    StepKeepsIff(s, a, capacity);
    OneStep(s, a, [], capacity);
    assert [a] + [] == [a];
  }

  /** Once a newer event is delivered, the older one comes too late. */
  lemma SentLate(s: State, older: nat, later: nat, capacity: nat)
    requires Inv(s, capacity) && capacity >= 1 && s.queue == [] && older < later && later in s.delivered
    requires older in s.busy && !s.busy[older].Draining?
    ensures Breaks(s, (if s.busy[older].Resuming? then [Resume(older)] else []) + [SendEnds(older, true)], capacity)
  {
    hide InOrder, Possible, Calm;
    var send := SendEnds(older, true);
    assert older in [older];
    if s.busy[older].Resuming? {
      ResumeKeepsIff(s, older, capacity);
      BreaksAtLast(Next(s, Resume(older), capacity), send, capacity);
      BreaksLater(s, Resume(older), [send], capacity);
    } else {
      BreaksAtLast(s, send, capacity);
      assert [] + [send] == [send];
    }
  }

  lemma SentFirst(s: State, older: nat, capacity: nat)
    requires Inv(s, capacity) && capacity >= 1 && older in s.busy && s.queue == []
    ensures var s1 := Next(s, Publish, capacity); Breaks(s1, LaterFirst(s1, older, s.next), capacity)
  {
    hide Ascending, Possible, Calm;
    var n := s.next;
    var s1 := Next(s, Publish, capacity);
    PublishKeeps(s, capacity);
    assert forall m :: m in s1.delivered ==> Arrived(s, m);
    SendKeepsIff(s1, n, capacity);
    var s2 := Next(s1, SendEnds(n, true), capacity);
    assert s2.delivered[|s.delivered|] == n;
    SentLate(s2, older, n, capacity);
    var tail := (if s.busy[older].Resuming? then [Resume(older)] else []) + [SendEnds(older, true)];
    BreaksLater(s1, SendEnds(n, true), tail, capacity);
    assert LaterFirst(s1, older, n) == [SendEnds(n, true)] + tail;
  }

  /** Past a queue with no drain, two publishes enqueue: the later one first. */
  lemma EnqueuedFirst(s: State, older: nat, later: nat, last: Action, capacity: nat)
    requires Inv(s, capacity) && capacity >= 1 && s.queue != [] && s.flight.None?
    requires older < later && Enabled(s, Resume(later)) && Enabled(s, last)
    requires last == SendEnds(older, false) || last == Resume(older)
    ensures Breaks(s, [Resume(later)] + [last], capacity) || !InTurn(s, Resume(later))
  {
    hide InOrder, Fits, Possible, Calm;
    if InTurn(s, Resume(later)) {
      var s' := Next(s, Resume(later), capacity);
      ResumeKeepsIff(s, later, capacity);
      assert s'.queue[|s'.queue| - 1] == later;
      assert later in s'.queue && Arrived(s', later);
      assert !Newest(s', older);
      BreaksAtLast(s', last, capacity);
      BreaksLater(s, Resume(later), [last], capacity);
    }
  }

  lemma QueuedFirst(s: State, older: nat, capacity: nat)
    requires Inv(s, capacity) && capacity >= 1 && older in s.busy && s.queue != []
    ensures var s1 := Next(s, Publish, capacity); Breaks(s1, LaterFirst(s1, older, s.next), capacity)
  {
    hide Ascending, Before, Fits, Possible, Calm, Breaks;
    var n := s.next;
    var s1 := Next(s, Publish, capacity);
    PublishKeeps(s, capacity);
    DrainOverKeeps(s1, capacity);
    var s2 := Next(s1, AttemptEnds(false), capacity);
    assert forall m: nat :: Arrived(s2, m) ==> m < n;
    var last := if s1.busy[older].Sending? then SendEnds(older, false) else Resume(older);
    EnqueuedFirst(s2, older, n, last, capacity);
    BreaksLater(s1, AttemptEnds(false), [Resume(n)] + [last], capacity);
    assert LaterFirst(s1, older, n) == [AttemptEnds(false)] + ([Resume(n)] + [last]);
  }

  /** A publish that begins while another is under way can end out of order, even
      when no other begins and nothing is evicted in flight. */
  lemma OverlapReorders(s: State, older: nat, capacity: nat)
    requires Inv(s, capacity) && capacity >= 1 && older in s.busy
    ensures var s1 := Next(s, Publish, capacity); Breaks(s1, LaterFirst(s1, older, s.next), capacity)
  {
    if s.queue == [] {
      SentFirst(s, older, capacity);
    } else {
      QueuedFirst(s, older, capacity);
    }
  }

  /** As long as nothing is evicted in flight, order is kept from here on exactly if
      this publish begins while no other is under way. */
  lemma SafeExactlyAlone(s: State, capacity: nat)
    requires Inv(s, capacity) && capacity >= 1 && Single(s) && !Stale(s)
    ensures s.busy == map[] <==> !exists actions :: Breaks(Next(s, Publish, capacity), actions, capacity)
  {
    var s1 := Next(s, Publish, capacity);
    if s.busy == map[] {
      PublishKeeps(s, capacity);
      AloneIsInTurn(s, Publish, capacity);
      forall actions
        ensures !Breaks(s1, actions, capacity)
      {
        if Possible(s1, actions, capacity) && Calm(s1, actions, capacity) {
          CalmIsInTurn(s1, actions, capacity);
          OrderFrom(s1, actions, capacity);
        }
      }
    } else {
      var older :| older in s.busy;
      OverlapReorders(s, older, capacity);
    }
  }

  // --- Drains, and what goes wrong ---

  /** Attempts of one drain: so many succeed, then the next fails unless none is left. */
  function DrainActions(successes: nat, pending: nat): seq<Action>
    decreases successes
  {
    if successes == 0 then (if pending == 0 then [] else [AttemptEnds(false)])
    else [AttemptEnds(true)] + DrainActions(successes - 1, if pending == 0 then 0 else pending - 1)
  }

  /** The state a drain from `s` stops in after so many successes. */
  function Drained(s: State, successes: nat): State
    requires successes <= |s.queue|
  {
    DrainOver(s.(queue := s.queue[successes..], delivered := s.delivered + s.queue[..successes]))
  }

  ghost predicate AtHead(s: State) {
    && s.flight == (if s.queue == [] then None else Some(s.queue[0]))
    && (s.queue == [] ==> Released(s.busy) == s.busy)
  }

  lemma ReleasedOnce(busy: map<nat, Phase>)
    ensures Released(Released(busy)) == Released(busy)
  {
    assert Released(busy).Keys == busy.Keys;
  }

  lemma UndisturbedStep(s: State, successes: nat, capacity: nat)
    requires 0 < successes <= |s.queue| && AtHead(s)
    ensures var s', rest := Next(s, AttemptEnds(true), capacity), s.queue[1..];
      s'.queue == rest && AtHead(s') && Drained(s', successes - 1) == Drained(s, successes)
  {
    hide Released;
    ReleasedOnce(s.busy);
    assert s.queue[..successes] == [s.queue[0]] + s.queue[1..][..successes - 1];
  }

  lemma NothingDrained(s: State)
    requires AtHead(s)
    ensures Drained(s, 0) == if s.queue == [] then s else DrainOver(s)
  {
    hide Released;
    ReleasedOnce(s.busy);
    assert s.queue[0..] == s.queue && s.delivered + s.queue[..0] == s.delivered;
  }

  /** A drain nobody interferes with delivers that many events from the front, and
      stops: what the flush does when it runs to completion. */
  lemma {:induction false} UndisturbedDrain(s: State, successes: nat, capacity: nat)
    requires successes <= |s.queue| && AtHead(s)
    ensures Possible(s, DrainActions(successes, |s.queue|), capacity)
    ensures Run(s, DrainActions(successes, |s.queue|), capacity) == Drained(s, successes)
    decreases successes
  {
    hide Drained, Drain;
    if successes == 0 {
      NothingDrained(s);
      if s.queue != [] {
        OneStep(s, AttemptEnds(false), [], capacity);
        assert [AttemptEnds(false)] + [] == [AttemptEnds(false)];
      }
    } else {
      var rest := s.queue[1..];
      UndisturbedStep(s, successes, capacity);
      UndisturbedDrain(Next(s, AttemptEnds(true), capacity), successes - 1, capacity);
      OneStep(s, AttemptEnds(true), DrainActions(successes - 1, |rest|), capacity);
    }
  }

  lemma LostStaysLostStep(s: State, n: nat, a: Action, capacity: nat)
    requires Lost(s, n) && Enabled(s, a)
    ensures Lost(Next(s, a, capacity), n)
  {
  }

  /** A lost event is never delivered later, whatever happens. */
  lemma {:induction false} LostStaysLost(s: State, n: nat, actions: seq<Action>, capacity: nat)
    requires Lost(s, n) && Possible(s, actions, capacity)
    ensures Lost(Run(s, actions, capacity), n)
    decreases |actions|
  {
    if actions != [] {
      LostStaysLostStep(s, n, actions[0], capacity);
      LostStaysLost(Next(s, actions[0], capacity), n, actions[1..], capacity);
    }
  }

  /** It does happen: with room for one event, the second is published while the
      first is being replayed, evicts it, and is lost when the replay succeeds. */
  lemma EvictionUnderFlightLoses()
    ensures var actions := [Publish, SendEnds(0, false), Tick, Publish, Resume(1), AttemptEnds(true)];
      Possible(INITIAL, actions, 1) && Lost(Run(INITIAL, actions, 1), 1)
  {
    var s1 := Next(INITIAL, Publish, 1);
    var s2 := Next(s1, SendEnds(0, false), 1);
    var s3 := Next(s2, Tick, 1);
    var s4 := Next(s3, Publish, 1);
    var s5 := Next(s4, Resume(1), 1);
    var s6 := Next(s5, AttemptEnds(true), 1);
    assert s5 == State(2, map[], [1], Some(0), [], [0]);
    assert s6 == State(2, map[], [], None, [0], [0]);
    OneStep(s5, AttemptEnds(true), [], 1);
    OneStep(s4, Resume(1), [AttemptEnds(true)], 1);
    OneStep(s3, Publish, [Resume(1), AttemptEnds(true)], 1);
    OneStep(s2, Tick, [Publish, Resume(1), AttemptEnds(true)], 1);
    OneStep(s1, SendEnds(0, false), [Tick, Publish, Resume(1), AttemptEnds(true)], 1);
    OneStep(INITIAL, Publish, [SendEnds(0, false), Tick, Publish, Resume(1), AttemptEnds(true)], 1);
  }

  /** Two publishes at once: the first attempt fails and queues its event, and the
      second event is delivered past it. */
  lemma NewerOvertakesQueued(capacity: nat)
    requires capacity >= 1
    ensures var actions := [Publish, Publish, SendEnds(0, false), SendEnds(1, true)];
      && Possible(INITIAL, actions, capacity)
      && var s := Run(INITIAL, actions, capacity); s.queue == [0] && s.delivered == [1]
  {
    var s1 := Next(INITIAL, Publish, capacity);
    var s2 := Next(s1, Publish, capacity);
    var s3 := Next(s2, SendEnds(0, false), capacity);
    OneStep(s3, SendEnds(1, true), [], capacity);
    OneStep(s2, SendEnds(0, false), [SendEnds(1, true)], capacity);
    OneStep(s1, Publish, [SendEnds(0, false), SendEnds(1, true)], capacity);
    OneStep(INITIAL, Publish, [Publish, SendEnds(0, false), SendEnds(1, true)], capacity);
  }
}
