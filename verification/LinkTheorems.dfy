/** What the link promises its users, for every interleaving from the start. */
module LinkTheorems {
  import opened Wrappers
  import opened Frames
  import opened LinkProtocol
  import opened LinkInvariant

  // ---------- Bytes arrive in order, on their own stream, completely ----------

  /** The bytes the application handed to one end of one stream, read off the run. */
  function Written(acts: seq<Action>, side: Side, id: StreamId): seq<byte> {
    if acts == [] then []
    else
      var a := acts[|acts| - 1];
      Written(acts[..|acts| - 1], side, id) +
      (if a.DoWrite? && a.side == side && a.id == id then a.chunk else [])
  }

  /** The written bytes and the sent ones part only once a stream has been reset,
      and then no END of that stream is ever sent. */
  ghost predicate Faithful(l: Link, acts: seq<Action>, side: Side, id: StreamId) {
    var x, y := End(l, side), End(l, Other(side));
    if id !in x.streams then Written(acts, side, id) == []
    else
      && x.streams[id].sent <= Written(acts, side, id)
      && (!x.streams[id].wasReset || InFlight(Incoming(l, Other(side)), FrameEnd, id) || HasRemoteEnded(y, id) ==>
            x.streams[id].sent == Written(acts, side, id))
  }

  lemma FlowOf(l: Link, side: Side, id: StreamId)
    requires Inv(l) && id in End(l, side).streams
    ensures Flow(End(l, side), End(l, Other(side)), Incoming(l, Other(side)), id)
  {
  }

  lemma InitialFaithful(side: Side, id: StreamId)
    ensures Faithful(INITIAL, [], side, id)
  {
  }

  lemma {:induction false} RunFaithful(acts: seq<Action>, side: Side, id: StreamId)
    requires Possible(INITIAL, acts)
    ensures Faithful(Run(INITIAL, acts), acts, side, id)
    decreases |acts|
  {
    hide Faithful, Inv, Next, Enabled;
    if acts == [] {
      InitialFaithful(side, id);
    } else {
      var past, a := acts[..|acts| - 1], acts[|acts| - 1];
      RunFaithful(past, side, id);
      InitialInv();
      RunKeeps(INITIAL, past);
      FaithfulStep(Run(INITIAL, past), past, a, side, id);
      assert past + [a] == acts;
    }
  }

  /** The two ways END shows: on the channel or already taken. */
  ghost predicate Ended(l: Link, side: Side, id: StreamId) {
    InFlight(Incoming(l, Other(side)), FrameEnd, id) || HasRemoteEnded(End(l, Other(side)), id)
  }

  /** A step that touches neither this stream's history nor its END. */
  lemma FaithfulKept(l: Link, l2: Link, past: seq<Action>, a: Action, side: Side, id: StreamId)
    requires Faithful(l, past, side, id)
    requires !(a.DoWrite? && a.side == side && a.id == id)
    requires id in End(l, side).streams ==>
      && id in End(l2, side).streams
      && End(l2, side).streams[id].sent == End(l, side).streams[id].sent
      && (End(l, side).streams[id].wasReset ==> End(l2, side).streams[id].wasReset)
    requires id !in End(l, side).streams && id in End(l2, side).streams ==> End(l2, side).streams[id].sent == []
    requires id in End(l, side).streams && Ended(l2, side, id) ==>
      Ended(l, side, id) || !End(l, side).streams[id].wasReset
    ensures Faithful(l2, past + [a], side, id)
  {
    assert (past + [a])[..|past + [a]| - 1] == past;
  }

  lemma FaithfulOwnWrite(l: Link, past: seq<Action>, side: Side, id: StreamId, chunk: seq<byte>)
    requires Inv(l) && Enabled(l, DoWrite(side, id, chunk)) && Faithful(l, past, side, id)
    ensures Faithful(Next(l, DoWrite(side, id, chunk)), past + [DoWrite(side, id, chunk)], side, id)
  {
    FlowOf(l, side, id);
    hide Inv, Flow;
    var a := DoWrite(side, id, chunk);
    assert (past + [a])[..|past + [a]| - 1] == past;
    Enqueue(Incoming(l, Other(side)), WriteChunk(End(l, side), id, chunk).1, id);
  }

  lemma FaithfulWrite(l: Link, past: seq<Action>, a: Action, side: Side, id: StreamId)
    requires Inv(l) && Enabled(l, a) && a.DoWrite? && Faithful(l, past, side, id)
    ensures Faithful(Next(l, a), past + [a], side, id)
  {
    if a.side == side && a.id == id {
      FaithfulOwnWrite(l, past, side, id, a.chunk);
    } else {
      hide Faithful, Inv;
      Enqueue(Incoming(l, Other(a.side)), WriteChunk(End(l, a.side), a.id, a.chunk).1, id);
      FaithfulKept(l, Next(l, a), past, a, side, id);
    }
  }

  lemma SideIsExact(l: Link, side: Side)
    requires Inv(l)
    ensures TableExact(End(l, side))
  {
  }

  lemma FaithfulDeliver(l: Link, past: seq<Action>, to: Side, side: Side, id: StreamId)
    requires Inv(l) && Enabled(l, Deliver(to)) && Faithful(l, past, side, id)
    ensures Faithful(Next(l, Deliver(to)), past + [Deliver(to)], side, id)
  {
    hide Next, Handle, Faithful, Inv, Expected;
    HeadExpected(l, to);
    DeliverMeansHandle(l, to);
    var f := Incoming(l, to)[0];
    var r := Handle(End(l, to), f);
    SideIsExact(l, to);
    HandleEffect(End(l, to), f);
    Dequeue(Incoming(l, to), id);
    Enqueue(Incoming(l, Other(to)), r.1, id);
    if id in End(l, side).streams {
      FlowOf(l, side, id);
    }
    FaithfulKept(l, Next(l, Deliver(to)), past, Deliver(to), side, id);
  }

  lemma FaithfulEnd(l: Link, past: seq<Action>, a: Action, side: Side, id: StreamId)
    requires Inv(l) && Enabled(l, a) && a.DoEnd? && Faithful(l, past, side, id)
    ensures Faithful(Next(l, a), past + [a], side, id)
  {
    hide Faithful, Inv;
    Enqueue(Incoming(l, Other(a.side)), Final(End(l, a.side), a.id).1, id);
    FaithfulKept(l, Next(l, a), past, a, side, id);
  }

  lemma FaithfulDestroy(l: Link, past: seq<Action>, a: Action, side: Side, id: StreamId)
    requires Inv(l) && Enabled(l, a) && a.DoDestroy? && Faithful(l, past, side, id)
    ensures Faithful(Next(l, a), past + [a], side, id)
  {
    hide Faithful, Inv;
    Enqueue(Incoming(l, Other(a.side)), Destroy(End(l, a.side), a.id, a.reason).1, id);
    FaithfulKept(l, Next(l, a), past, a, side, id);
  }

  lemma FaithfulOpen(l: Link, past: seq<Action>, a: Action, side: Side, id: StreamId)
    requires Inv(l) && Enabled(l, a) && a.DoOpen? && Faithful(l, past, side, id)
    ensures Faithful(Next(l, a), past + [a], side, id)
  {
    hide Faithful, Inv;
    Enqueue(l.toAgent, Open(l.orchestrator, a.id).1, id);
    FaithfulKept(l, Next(l, a), past, a, side, id);
  }

  lemma FaithfulClose(l: Link, past: seq<Action>, a: Action, side: Side, id: StreamId)
    requires Inv(l) && Enabled(l, a) && a.DoClose? && Faithful(l, past, side, id)
    ensures Faithful(Next(l, a), past + [a], side, id)
  {
    hide Faithful, Inv;
    Enqueue(Incoming(l, Other(a.side)), [], id);
    FaithfulKept(l, Next(l, a), past, a, side, id);
  }

  lemma FaithfulStep(l: Link, past: seq<Action>, a: Action, side: Side, id: StreamId)
    requires Inv(l) && Enabled(l, a) && Faithful(l, past, side, id)
    ensures Faithful(Next(l, a), past + [a], side, id)
  {
    hide Faithful, Inv, Next;
    match a
    case DoOpen(_) => FaithfulOpen(l, past, a, side, id);
    case DoWrite(_, _, _) => FaithfulWrite(l, past, a, side, id);
    case DoEnd(_, _) => FaithfulEnd(l, past, a, side, id);
    case DoDestroy(_, _, _) => FaithfulDestroy(l, past, a, side, id);
    case DoClose(_) => FaithfulClose(l, past, a, side, id);
    case Deliver(to) => FaithfulDeliver(l, past, to, side, id);
  }

  /** For every interleaving of opens, writes, ends, destroys, closes and in-order
      deliveries: what one end of a stream has received is a prefix of what the
      application wrote to the other end of that same stream, and is all of it
      once the end of the stream has been received. */
  lemma StreamIntegrity(acts: seq<Action>, side: Side, id: StreamId)
    requires Possible(INITIAL, acts)
    ensures var y := End(Run(INITIAL, acts), Other(side));
      && Received(y, id) <= Written(acts, side, id)
      && (HasRemoteEnded(y, id) ==> Received(y, id) == Written(acts, side, id))
  {
    var l := Run(INITIAL, acts);
    InitialInv();
    RunKeeps(INITIAL, acts);
    RunFaithful(acts, side, id);
    if id in End(l, side).streams {
      FlowOf(l, side, id);
    } else if id in End(l, Other(side)).streams {
      assert side == Agent;
      assert id !in l.agent.streams;
    }
  }

  // ---------- Both ends forget the same streams ----------

  /** One direction of the agreement: nothing in flight, so what `x` still holds
      its peer holds too. */
  lemma HeldByBoth(l: Link, side: Side, id: StreamId)
    requires Inv(l) && l.toAgent == [] && l.toOrchestrator == []
    requires !l.orchestrator.closed && !l.agent.closed
    requires id in End(l, side).table
    ensures id in End(l, Other(side)).table
  {
    var x, y := End(l, side), End(l, Other(side));
    assert forall kind, k :: !InFlight([], kind, k);
    assert id in y.streams;
    if id !in y.table {
      FlowOf(l, Other(side), id);
      FlowOf(l, side, id);
    }
  }

  lemma QuietTablesAgree(l: Link)
    requires Inv(l) && l.toAgent == [] && l.toOrchestrator == []
    requires !l.orchestrator.closed && !l.agent.closed
    ensures l.orchestrator.table == l.agent.table
  {
    hide Inv;
    forall id
      ensures id in l.orchestrator.table <==> id in l.agent.table
    {
      if id in l.orchestrator.table { HeldByBoth(l, Orchestrator, id); }
      if id in l.agent.table { HeldByBoth(l, Agent, id); }
    }
  }

  /** With both channels empty and neither end closed, the two tables are equal. */
  lemma TablesAgree(acts: seq<Action>)
    requires Possible(INITIAL, acts)
    ensures var l := Run(INITIAL, acts);
      l.toAgent == [] && l.toOrchestrator == [] && !l.orchestrator.closed && !l.agent.closed ==>
        l.orchestrator.table == l.agent.table
  {
    var l := Run(INITIAL, acts);
    InitialInv();
    RunKeeps(INITIAL, acts);
    if l.toAgent == [] && l.toOrchestrator == [] && !l.orchestrator.closed && !l.agent.closed {
      QuietTablesAgree(l);
    }
  }

  // ---------- A run in which nobody destroys a stream ----------

  /** No close, and no destroy but the automatic one of a stream ended both ways. */
  ghost predicate Gentle(l: Link, acts: seq<Action>)
    requires Possible(l, acts)
    decreases |acts|
  {
    acts == [] ||
    var past, a := acts[..|acts| - 1], acts[|acts| - 1];
    Gentle(l, past) && !a.DoClose? &&
    (a.DoDestroy? ==> var t := End(Run(l, past), a.side).streams[a.id]; t.localEnded && t.remoteEnded)
  }

  ghost predicate NoReset(l: Link) {
    && !l.orchestrator.closed && !l.agent.closed
    && (forall id :: id in l.orchestrator.streams ==> !l.orchestrator.streams[id].wasReset)
    && (forall id :: id in l.agent.streams ==> !l.agent.streams[id].wasReset)
    && (forall i :: 0 <= i < |l.toAgent| ==> !l.toAgent[i].kind.FrameReset?)
    && (forall i :: 0 <= i < |l.toOrchestrator| ==> !l.toOrchestrator[i].kind.FrameReset?)
  }

  /** No frame is ever answered when nothing was reset: it finds its stream. */
  lemma UnansweredDelivery(l: Link, to: Side)
    requires Inv(l) && NoReset(l) && Incoming(l, to) != []
    ensures Enabled(l, Deliver(to)) && NoReset(Next(l, Deliver(to)))
  {
    hide Next, Handle, NoReset;
    HeadExpected(l, to);
    DeliverMeansHandle(l, to);
    var f := Incoming(l, to)[0];
    var y := End(l, to);
    HandleEffect(y, f);
    assert InFlight(Incoming(l, to), f.kind, f.streamId);
    FlowOf(l, Other(to), f.streamId);
    HeadIsNoReset(l, to);
    assert Handle(y, f).1 == [];
    hide Inv, Flow, InFlight;
    var r := Handle(y, f);
    assert r == (r.0, []);
    PopKeepsNoReset(l, to);
    GentleChange(Pop(l, to), to, r.0, []);
  }

  lemma HeadIsNoReset(l: Link, to: Side)
    requires NoReset(l) && Incoming(l, to) != []
    ensures !Incoming(l, to)[0].kind.FrameReset? && !l.orchestrator.closed && !l.agent.closed
    ensures forall id :: id in l.orchestrator.streams ==> !l.orchestrator.streams[id].wasReset
    ensures forall id :: id in l.agent.streams ==> !l.agent.streams[id].wasReset
  {
  }

  lemma PopKeepsNoReset(l: Link, to: Side)
    requires NoReset(l) && Incoming(l, to) != []
    ensures NoReset(Pop(l, to)) && End(Pop(l, to), to) == End(l, to)
  {
  }

  /** A write, an end, or the destroy of a stream ended both ways sends no RESET. */
  lemma GentleChange(l: Link, side: Side, x2: Session, fs: seq<Frame>)
    requires NoReset(l) && x2.closed == End(l, side).closed
    requires forall id :: id in x2.streams ==> !x2.streams[id].wasReset
    requires fs == [] || (|fs| == 1 && !fs[0].kind.FrameReset?)
    ensures NoReset(Update(l, side, (x2, fs)))
  {
  }

  lemma GentleStep(l: Link, a: Action)
    requires Inv(l) && NoReset(l) && Enabled(l, a) && !a.DoClose?
    requires a.DoDestroy? ==> var t := End(l, a.side).streams[a.id]; t.localEnded && t.remoteEnded
    ensures NoReset(Next(l, a))
  {
    match a
    case Deliver(to) =>
      hide Next, NoReset, Inv;
      UnansweredDelivery(l, to);
    case DoOpen(id) =>
      hide Inv, Update;
      var r := Open(l.orchestrator, id);
      GentleChange(l, Orchestrator, r.0, r.1);
    case DoWrite(side, id, chunk) =>
      hide Inv, Update;
      var r := WriteChunk(End(l, side), id, chunk);
      GentleChange(l, side, r.0, r.1);
    case DoEnd(side, id) =>
      hide Inv, Update;
      var r := Final(End(l, side), id);
      GentleChange(l, side, r.0, r.1);
    case DoDestroy(side, id, reason) =>
      hide Inv, Update;
      var r := Destroy(End(l, side), id, reason);
      GentleChange(l, side, r.0, r.1);
  }

  lemma {:induction false} GentleRunHasNoReset(acts: seq<Action>)
    requires Possible(INITIAL, acts) && Gentle(INITIAL, acts)
    ensures NoReset(Run(INITIAL, acts))
    decreases |acts|
  {
    hide Inv, Next, Enabled;
    if acts != [] {
      var past, a := acts[..|acts| - 1], acts[|acts| - 1];
      var l := Run(INITIAL, past);
      GentleRunHasNoReset(past);
      InitialInv();
      RunKeeps(INITIAL, past);
      GentleStep(l, a);
    }
  }

  /** If nobody destroys a stream, no RESET is ever sent; and once everything has
      arrived and every stream is ended from both ends, both tables are empty. */
  lemma GentleRunsLeaveNothing(acts: seq<Action>)
    requires Possible(INITIAL, acts) && Gentle(INITIAL, acts)
    ensures var l := Run(INITIAL, acts);
      && NoReset(l)
      && (l.toAgent == [] && l.toOrchestrator == [] &&
          (forall id :: id in l.orchestrator.streams ==>
             l.orchestrator.streams[id].localEnded && id in l.agent.streams && l.agent.streams[id].localEnded)
          ==> l.orchestrator.table == {} && l.agent.table == {})
  {
    var l := Run(INITIAL, acts);
    GentleRunHasNoReset(acts);
    InitialInv();
    RunKeeps(INITIAL, acts);
    assert forall kind, k :: !InFlight([], kind, k);
    if l.toAgent == [] && l.toOrchestrator == [] && forall id :: id in l.orchestrator.streams ==>
        l.orchestrator.streams[id].localEnded && id in l.agent.streams && l.agent.streams[id].localEnded
    {
      forall id | id in l.orchestrator.table
        ensures false
      {
        FlowOf(l, Agent, id);
      }
      forall id | id in l.agent.table
        ensures false
      {
        FlowOf(l, Orchestrator, id);
      }
    }
  }

  // ---------- Everything in flight drains ----------

  function Weight(q: seq<Frame>): nat {
    if q == [] then 0 else (if q[0].kind.FrameReset? then 1 else 2) + Weight(q[1..])
  }

  /** Twice the frames that may still be answered, plus the RESETs. */
  function Traffic(l: Link): nat {
    Weight(l.toAgent) + Weight(l.toOrchestrator)
  }

  lemma {:induction false} WeightAppend(q: seq<Frame>, f: Frame)
    ensures Weight(q + [f]) == Weight(q) + (if f.kind.FrameReset? then 1 else 2)
  {
    if q == [] {
      assert q + [f] == [f] && [f][1..] == [];
    } else {
      WeightAppend(q[1..], f);
      assert (q + [f])[1..] == q[1..] + [f];
    }
  }

  /** A delivery answers with at most one RESET, and answers a RESET with nothing. */
  lemma DeliveryMakesProgress(l: Link, to: Side)
    requires Enabled(l, Deliver(to))
    ensures Traffic(Next(l, Deliver(to))) < Traffic(l)
  {
    var q := Incoming(l, to);
    var f := q[0];
    DecodeEncode(f.kind, f.streamId, f.payload);
    var fs := Receive(End(l, to), Encode(f)).1;
    assert |fs| <= 1 && (fs != [] ==> fs[0].kind.FrameReset? && !f.kind.FrameReset?);
    if fs == [] {
      assert Incoming(l, Other(to)) + fs == Incoming(l, Other(to));
    } else {
      assert fs == [fs[0]];
      WeightAppend(Incoming(l, Other(to)), fs[0]);
    }
  }

  /** With no further application action, at most 2·(non-RESET) + (RESET)
      deliveries can follow. */
  lemma {:induction false} DeliveriesAreBounded(l: Link, acts: seq<Action>)
    requires Possible(l, acts) && forall i :: 0 <= i < |acts| ==> acts[i].Deliver?
    ensures |acts| + Traffic(Run(l, acts)) <= Traffic(l)
    decreases |acts|
  {
    hide Next, Enabled, Traffic;
    if acts != [] {
      var past, a := acts[..|acts| - 1], acts[|acts| - 1];
      DeliveriesAreBounded(l, past);
      DeliveryMakesProgress(Run(l, past), a.to);
    }
  }

  lemma {:induction false} RunPrepend(l: Link, a: Action, acts: seq<Action>)
    requires Enabled(l, a) && Possible(Next(l, a), acts)
    ensures Possible(l, [a] + acts) && Run(l, [a] + acts) == Run(Next(l, a), acts)
    decreases |acts|
  {
    hide Next, Enabled;
    var all := [a] + acts;
    if acts == [] {
      assert all == [a] && all[..|all| - 1] == [];
      assert Possible(l, []);
    } else {
      var past := acts[..|acts| - 1];
      RunPrepend(l, a, past);
      assert all[..|all| - 1] == [a] + past;
      assert all[|all| - 1] == acts[|acts| - 1];
    }
  }

  lemma CanDeliver(l: Link, to: Side)
    requires Inv(l) && Incoming(l, to) != []
    ensures Enabled(l, Deliver(to))
  {
  }

  /** Whatever is in flight, deliveries alone empty both channels, within the
      bound, and then the two ends agree unless one of them has closed. */
  lemma {:induction false} TrafficDrains(l: Link) returns (acts: seq<Action>)
    requires Inv(l)
    ensures Possible(l, acts) && (forall i :: 0 <= i < |acts| ==> acts[i].Deliver?)
    ensures |acts| <= Traffic(l)
    ensures var l2 := Run(l, acts);
      && l2.toAgent == [] && l2.toOrchestrator == []
      && (!l2.orchestrator.closed && !l2.agent.closed ==> l2.orchestrator.table == l2.agent.table)
    decreases Traffic(l)
  {
    hide Inv, Next, Enabled, Traffic;
    if l.toAgent == [] && l.toOrchestrator == [] {
      acts := [];
      if !l.orchestrator.closed && !l.agent.closed {
        QuietTablesAgree(l);
      }
    } else {
      var to := if l.toAgent != [] then Agent else Orchestrator;
      var a := Deliver(to);
      CanDeliver(l, to);
      NextKeeps(l, a);
      DeliveryMakesProgress(l, to);
      var rest := TrafficDrains(Next(l, a));
      RunPrepend(l, a, rest);
      acts := [a] + rest;
      DeliveriesAreBounded(l, acts);
    }
  }

  // ---------- Stream ids ----------

  /** What may be done where nothing keeps an id from being handed out again. */
  ghost predicate EnabledUnguarded(l: Link, a: Action) {
    if a.DoOpen? then !l.orchestrator.closed && Allocates(l.orchestrator.nextId, l.orchestrator.table, a.id)
    else Enabled(l, a)
  }

  /** The opens among the actions. */
  function Opens(acts: seq<Action>): nat {
    if acts == [] then 0 else Opens(acts[..|acts| - 1]) + if acts[|acts| - 1].DoOpen? then 1 else 0
  }

  /** After the actions before it each one may be done, its id perhaps not new. */
  ghost predicate PossibleUnguarded(l: Link, acts: seq<Action>)
    decreases |acts|
  {
    acts == [] ||
    (PossibleUnguarded(l, acts[..|acts| - 1]) &&
     (Possible(l, acts[..|acts| - 1]) ==> EnabledUnguarded(Run(l, acts[..|acts| - 1]), acts[|acts| - 1])))
  }

  /** After `n` opens: every id used is one of the first `n`, and the next is not. */
  ghost predicate FirstLap(s: Session, n: nat) {
    && !s.accepts && s.table <= s.streams.Keys
    && (forall id :: id in s.streams ==> 1 <= id <= n)
    && (n < MAX_ID ==> s.nextId == n + 1)
  }

  lemma FirstIdIsNext(s: Session, n: nat, id: StreamId)
    requires FirstLap(s, n) && n < MAX_ID && Allocates(s.nextId, s.table, id)
    ensures id == n + 1 && id !in s.streams && FirstLap(Open(s, id).0, n + 1)
  {
    assert CyclicId(s.nextId, 0) == s.nextId;
    var k: nat :| id == CyclicId(s.nextId, k) && forall j: nat :: j < k ==> CyclicId(s.nextId, j) in s.table;
  }

  /** Nothing but an open touches the orchestrator's counter or adds to its streams. */
  lemma OthersKeepLap(l: Link, a: Action, n: nat)
    requires Inv(l) && Enabled(l, a) && !a.DoOpen? && FirstLap(l.orchestrator, n)
    ensures FirstLap(Next(l, a).orchestrator, n)
  {
    if a.Deliver? {
      DeliverMeansHandle(l, a.to);
      hide Inv, Next;
    } else {
      hide Inv;
    }
  }

  /** In a run of at most 2^32-1 opens the counter hands out every id once: no action
      needs the guard that an id is new. */
  lemma {:induction false} IdsAreNew(acts: seq<Action>)
    requires PossibleUnguarded(INITIAL, acts) && Opens(acts) <= MAX_ID
    ensures Possible(INITIAL, acts)
    ensures FirstLap(Run(INITIAL, acts).orchestrator, Opens(acts))
    decreases |acts|
  {
    hide Inv, Next, Allocates, FirstLap;
    if acts == [] {
      InitialLap();
    } else {
      var past, a := acts[..|acts| - 1], acts[|acts| - 1];
      IdsAreNew(past);
      InitialInv();
      RunKeeps(INITIAL, past);
      var l := Run(INITIAL, past);
      if a.DoOpen? {
        FirstIdIsNext(l.orchestrator, Opens(past), a.id);
        OpenMeansOpen(l, a.id);
      } else {
        OthersKeepLap(l, a, Opens(past));
      }
    }
  }

  lemma InitialLap()
    ensures FirstLap(INITIAL.orchestrator, 0)
  {
  }

  lemma OpenMeansOpen(l: Link, id: StreamId)
    requires Enabled(l, DoOpen(id))
    ensures Next(l, DoOpen(id)).orchestrator == Open(l.orchestrator, id).0
  {
  }

  // ---------- A stream the other end does not have ----------

  /** A frame for a stream its receiver does not have, or will not open, changes nothing
      there and is answered; the answer ends that stream at the sender, and no other. */
  lemma RefusedFrameEndsStream(s: Session, r: Session, f: Frame)
    requires s.table <= s.streams.Keys && r.table <= r.streams.Keys && !s.closed && !r.closed
    requires f.streamId in s.table && !s.streams[f.streamId].wasReset && !f.kind.FrameReset?
    requires if f.kind.FrameOpen? then !r.accepts || f.streamId in r.table else f.streamId !in r.table
    ensures var (r2, fs) := Receive(r, Encode(f)); var id := f.streamId;
      && r2 == r && |fs| == 1
      && var (s2, answers) := Receive(s, Encode(fs[0]));
         && answers == [] && id !in s2.table && s2.table == s.table - {id}
         && s2.streams == s.streams[id := s.streams[id].(wasReset := true)]
  {
    DecodeEncode(f.kind, f.streamId, f.payload);
    var answer := Receive(r, Encode(f)).1[0];
    DecodeEncode(answer.kind, answer.streamId, answer.payload);
  }

  /** A RESET for a stream its receiver does not have ends there, unanswered. */
  lemma StrayResetIsIgnored(r: Session, f: Frame)
    requires r.table <= r.streams.Keys && f.kind.FrameReset? && f.streamId !in r.table
    ensures Receive(r, Encode(f)) == (r, [])
  {
    DecodeEncode(f.kind, f.streamId, f.payload);
  }

  /** A session that was closed hears nothing and says nothing. */
  lemma ClosedIsSilent(s: Session, data: Message)
    requires s.table <= s.streams.Keys && s.closed
    ensures Receive(s, data) == (s, []) && Close(s) == s
  {
  }

  /** Whatever bytes arrive, a stream whose other side has ended, or that is no longer in
      the table, delivers nothing more to its reader. */
  lemma NothingAfterEnd(s: Session, data: Message, k: StreamId)
    requires s.table <= s.streams.Keys && k in s.streams && (k in s.table ==> s.streams[k].remoteEnded)
    requires k !in s.table ==> DecodeFrame(data).None? || !Accepts(s, DecodeFrame(data).value)
    ensures var after := Receive(s, data).0;
      k in after.streams && after.streams[k].received == s.streams[k].received
  {
  }
}
