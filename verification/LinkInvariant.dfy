/** What every run of the two-ended link keeps. */
module LinkInvariant {
  import opened Wrappers
  import opened Frames
  import opened LinkProtocol

  // ---------- Frames in flight ----------

  ghost predicate InFlight(q: seq<Frame>, kind: FrameKind, id: StreamId) {
    exists i :: 0 <= i < |q| && q[i].kind == kind && q[i].streamId == id
  }

  /** The bytes the queue still carries for one stream. */
  function Payload(q: seq<Frame>, id: StreamId): seq<byte> {
    if q == [] then []
    else (if q[0].kind == FrameData && q[0].streamId == id then q[0].payload else []) + Payload(q[1..], id)
  }

  /** Per stream the queue reads OPEN? DATA* END? RESET*. */
  ghost predicate Ordered(q: seq<Frame>) {
    forall i, j :: 0 <= i < j < |q| && q[i].streamId == q[j].streamId ==>
      && !q[j].kind.FrameOpen?
      && (q[i].kind.FrameEnd? || q[i].kind.FrameReset? ==> q[j].kind.FrameReset?)
  }

  lemma InFlightAppend(q: seq<Frame>, f: Frame, kind: FrameKind, id: StreamId)
    ensures InFlight(q + [f], kind, id) <==> InFlight(q, kind, id) || (f.kind == kind && f.streamId == id)
  {
    if InFlight(q, kind, id) {
      var i :| 0 <= i < |q| && q[i].kind == kind && q[i].streamId == id;
      assert (q + [f])[i] == q[i];
    }
    assert (q + [f])[|q|] == f;
  }

  lemma InFlightPop(q: seq<Frame>, kind: FrameKind, id: StreamId)
    requires q != []
    ensures InFlight(q, kind, id) <==> (q[0].kind == kind && q[0].streamId == id) || InFlight(q[1..], kind, id)
  {
    if InFlight(q[1..], kind, id) {
      var i :| 0 <= i < |q[1..]| && q[1..][i].kind == kind && q[1..][i].streamId == id;
      assert q[i + 1] == q[1..][i];
    }
    if InFlight(q, kind, id) {
      var i :| 0 <= i < |q| && q[i].kind == kind && q[i].streamId == id;
      assert i > 0 ==> q[1..][i - 1] == q[i];
    }
  }

  lemma {:induction false} PayloadAppend(q: seq<Frame>, f: Frame, id: StreamId)
    ensures Payload(q + [f], id) ==
      Payload(q, id) + (if f.kind == FrameData && f.streamId == id then f.payload else [])
  {
    if q == [] {
      assert q + [f] == [f];
      assert [f][1..] == [];
    } else {
      PayloadAppend(q[1..], f, id);
      assert (q + [f])[1..] == q[1..] + [f];
    }
  }

  lemma {:induction false} PayloadEmpty(q: seq<Frame>, id: StreamId)
    requires !InFlight(q, FrameData, id)
    ensures Payload(q, id) == []
  {
    if q != [] {
      InFlightPop(q, FrameData, id);
      PayloadEmpty(q[1..], id);
    }
  }

  /** What one frame does to the view of one stream's traffic. */
  lemma Enqueue(q: seq<Frame>, fs: seq<Frame>, id: StreamId)
    requires |fs| <= 1
    ensures forall kind :: InFlight(q + fs, kind, id) <==>
      InFlight(q, kind, id) || (fs != [] && fs[0].kind == kind && fs[0].streamId == id)
    ensures Payload(q + fs, id) ==
      Payload(q, id) + (if fs != [] && fs[0].kind == FrameData && fs[0].streamId == id then fs[0].payload else [])
  {
    if fs == [] {
      assert q + fs == q;
    } else {
      assert fs == [fs[0]];
      PayloadAppend(q, fs[0], id);
      forall kind {
        InFlightAppend(q, fs[0], kind, id);
      }
    }
  }

  lemma Dequeue(q: seq<Frame>, id: StreamId)
    requires q != []
    ensures forall kind :: InFlight(q, kind, id) <==>
      (q[0].kind == kind && q[0].streamId == id) || InFlight(q[1..], kind, id)
    ensures Payload(q, id) ==
      (if q[0].kind == FrameData && q[0].streamId == id then q[0].payload else []) + Payload(q[1..], id)
  {
    forall kind
      ensures InFlight(q, kind, id) <==> (q[0].kind == kind && q[0].streamId == id) || InFlight(q[1..], kind, id)
    {
      InFlightPop(q, kind, id);
    }
  }

  // ---------- The invariant ----------

  ghost predicate Active(t: Stream) {
    !t.wasReset && !(t.localEnded && t.remoteEnded)
  }

  /** A session's table is exactly its unfinished streams. */
  ghost predicate TableExact(s: Session) {
    && (forall id :: id in s.table <==> id in s.streams && Active(s.streams[id]))
    && (s.closed ==> s.table == {})
  }

  function Received(y: Session, id: StreamId): seq<byte> {
    if id in y.streams then y.streams[id].received else []
  }

  function HasRemoteEnded(y: Session, id: StreamId): bool {
    id in y.streams && y.streams[id].remoteEnded
  }

  /** `y` will still take what is in flight to it for `id`. */
  ghost predicate Listening(y: Session, id: StreamId) {
    !y.closed && (id in y.streams ==> id in y.table)
  }

  /** One stream, one direction: `x` sends to `y` over `q`. */
  ghost predicate Flow(x: Session, y: Session, q: seq<Frame>, id: StreamId)
    requires id in x.streams
  {
    var t := x.streams[id];
    && Received(y, id) <= t.sent
    && (Listening(y, id) ==> t.sent == Received(y, id) + Payload(q, id))
    && (InFlight(q, FrameEnd, id) ==> t.localEnded)
    && (InFlight(q, FrameReset, id) ==> t.wasReset)
    && (HasRemoteEnded(y, id) ==>
          t.localEnded && Received(y, id) == t.sent && !InFlight(q, FrameData, id) && !InFlight(q, FrameEnd, id))
    && (t.localEnded && !t.wasReset && Listening(y, id) ==> InFlight(q, FrameEnd, id) || HasRemoteEnded(y, id))
    && (t.wasReset && !x.closed && Listening(y, id) ==> InFlight(q, FrameReset, id))
  }

  ghost predicate Direction(x: Session, y: Session, q: seq<Frame>) {
    && (forall i :: 0 <= i < |q| ==> q[i].streamId in x.streams)
    && Ordered(q)
    && (forall id {:trigger Flow(x, y, q, id)} :: id in x.streams ==> Flow(x, y, q, id))
  }

  /** Only the orchestrator opens; an id the agent does not know yet still has its
      OPEN on the way. */
  ghost predicate Opens(l: Link) {
    && !l.orchestrator.accepts && l.agent.accepts
    && 1 <= l.orchestrator.nextId
    && l.agent.streams.Keys <= l.orchestrator.streams.Keys
    && (forall id :: !InFlight(l.toOrchestrator, FrameOpen, id))
    && (forall id :: InFlight(l.toAgent, FrameOpen, id) ==> id !in l.agent.streams)
    && (!l.agent.closed ==>
          forall id :: id in l.orchestrator.streams && id !in l.agent.streams ==> InFlight(l.toAgent, FrameOpen, id))
    && (forall id :: id in l.orchestrator.streams && id !in l.agent.streams ==>
          l.orchestrator.streams[id].received == [] && !l.orchestrator.streams[id].remoteEnded)
  }

  ghost predicate Inv(l: Link) {
    && TableExact(l.orchestrator) && TableExact(l.agent)
    && Direction(l.orchestrator, l.agent, l.toAgent)
    && Direction(l.agent, l.orchestrator, l.toOrchestrator)
    && Opens(l)
  }

  // ---------- One session changes ----------

  /** `x` becomes `x2` and puts `fs` on its channel: what the channel keeps. */
  lemma SendKeepsOrder(x: Session, x2: Session, y: Session, q: seq<Frame>, fs: seq<Frame>)
    requires Direction(x, y, q) && x.streams.Keys <= x2.streams.Keys && |fs| <= 1
    requires fs != [] ==> fs[0].streamId in x2.streams
    requires fs != [] && fs[0].kind.FrameOpen? ==> fs[0].streamId !in x.streams
    requires fs != [] && !fs[0].kind.FrameOpen? && !fs[0].kind.FrameReset? ==>
      fs[0].streamId in x.streams && !x.streams[fs[0].streamId].localEnded && !x.streams[fs[0].streamId].wasReset
    ensures forall i :: 0 <= i < |q + fs| ==> (q + fs)[i].streamId in x2.streams
    ensures Ordered(q + fs)
  {
    if fs != [] {
      var f := fs[0];
      forall i | 0 <= i < |q| && q[i].streamId == f.streamId
        ensures !f.kind.FrameOpen? && (q[i].kind.FrameEnd? || q[i].kind.FrameReset? ==> f.kind.FrameReset?)
      {
        assert Flow(x, y, q, q[i].streamId);
        assert InFlight(q, q[i].kind, q[i].streamId);
      }
    }
  }

  /** `x2` is `x` after an operation of its own: it admits no stream and takes
      nothing from its peer. */
  ghost predicate Bookkeeping(x: Session, x2: Session) {
    && x2.streams.Keys == x.streams.Keys && x2.table <= x.table && (x.closed ==> x2.closed)
    && x2.accepts == x.accepts && x2.nextId == x.nextId
    && forall k :: k in x.streams ==>
         x2.streams[k].received == x.streams[k].received && x2.streams[k].remoteEnded == x.streams[k].remoteEnded
  }

  lemma WriteFlow(x: Session, y: Session, q: seq<Frame>, id: StreamId, chunk: seq<byte>, k: StreamId)
    requires TableExact(x) && id in x.streams && !x.streams[id].localEnded
    requires k in x.streams && Flow(x, y, q, k)
    ensures var (x2, fs) := WriteChunk(x, id, chunk); Flow(x2, y, q + fs, k)
  {
    var (x2, fs) := WriteChunk(x, id, chunk);
    Enqueue(q, fs, k);
  }

  lemma FinalFlow(x: Session, y: Session, q: seq<Frame>, id: StreamId, k: StreamId)
    requires TableExact(x) && id in x.streams && !x.streams[id].localEnded
    requires k in x.streams && Flow(x, y, q, k)
    ensures var (x2, fs) := Final(x, id); Flow(x2, y, q + fs, k)
  {
    var (x2, fs) := Final(x, id);
    Enqueue(q, fs, k);
  }

  lemma DestroyFlow(x: Session, y: Session, q: seq<Frame>, id: StreamId, reason: seq<byte>, k: StreamId)
    requires TableExact(x) && id in x.streams
    requires k in x.streams && Flow(x, y, q, k)
    ensures var (x2, fs) := Destroy(x, id, reason); Flow(x2, y, q + fs, k)
  {
    var (x2, fs) := Destroy(x, id, reason);
    Enqueue(q, fs, k);
  }

  lemma WriteTable(x: Session, id: StreamId, chunk: seq<byte>)
    requires TableExact(x) && id in x.streams
    ensures var x2 := WriteChunk(x, id, chunk).0; TableExact(x2) && Bookkeeping(x, x2)
  {
  }

  lemma WriteKeeps(x: Session, y: Session, q: seq<Frame>, r: seq<Frame>, id: StreamId, chunk: seq<byte>)
    requires TableExact(x) && Direction(x, y, q) && Direction(y, x, r)
    requires id in x.streams && !x.streams[id].localEnded
    ensures var (x2, fs) := WriteChunk(x, id, chunk);
      TableExact(x2) && Bookkeeping(x, x2) && Direction(x2, y, q + fs) && Direction(y, x2, r)
  {
    var (x2, fs) := WriteChunk(x, id, chunk);
    WriteTable(x, id, chunk);
    SendKeepsOrder(x, x2, y, q, fs);
    forall k | k in x2.streams
      ensures Flow(x2, y, q + fs, k)
    {
      WriteFlow(x, y, q, id, chunk, k);
    }
    ReceiverUnchanged(y, x, x2, r);
  }

  lemma FinalTable(x: Session, id: StreamId)
    requires TableExact(x) && id in x.streams
    ensures var x2 := Final(x, id).0; TableExact(x2) && Bookkeeping(x, x2)
  {
  }

  lemma FinalKeeps(x: Session, y: Session, q: seq<Frame>, r: seq<Frame>, id: StreamId)
    requires TableExact(x) && Direction(x, y, q) && Direction(y, x, r)
    requires id in x.streams && !x.streams[id].localEnded
    ensures var (x2, fs) := Final(x, id);
      TableExact(x2) && Bookkeeping(x, x2) && Direction(x2, y, q + fs) && Direction(y, x2, r)
  {
    var (x2, fs) := Final(x, id);
    FinalTable(x, id);
    assert fs != [] ==> fs[0].streamId == id && fs[0].kind.FrameEnd? && !x.streams[id].wasReset;
    SendKeepsOrder(x, x2, y, q, fs);
    forall k | k in x2.streams
      ensures Flow(x2, y, q + fs, k)
    {
      FinalFlow(x, y, q, id, k);
    }
    ReceiverUnchanged(y, x, x2, r);
  }

  /** What an end still has to receive is untouched by its own bookkeeping on a
      stream it leaves unended and does not re-admit. */
  lemma ReceiverUnchanged(y: Session, x: Session, x2: Session, r: seq<Frame>)
    requires Direction(y, x, r)
    requires Bookkeeping(x, x2)
    ensures Direction(y, x2, r)
  {
    forall k | k in y.streams
      ensures Flow(y, x2, r, k)
    {
      assert Flow(y, x, r, k);
    }
  }

  lemma DestroyTable(x: Session, id: StreamId, reason: seq<byte>)
    requires TableExact(x) && id in x.streams
    ensures var x2 := Destroy(x, id, reason).0; TableExact(x2) && Bookkeeping(x, x2)
  {
  }

  lemma DestroyKeeps(x: Session, y: Session, q: seq<Frame>, r: seq<Frame>, id: StreamId, reason: seq<byte>)
    requires TableExact(x) && Direction(x, y, q) && Direction(y, x, r)
    requires id in x.streams
    ensures var (x2, fs) := Destroy(x, id, reason);
      TableExact(x2) && Bookkeeping(x, x2) && Direction(x2, y, q + fs) && Direction(y, x2, r)
  {
    var (x2, fs) := Destroy(x, id, reason);
    DestroyTable(x, id, reason);
    assert fs != [] ==> fs[0].streamId == id && fs[0].kind.FrameReset?;
    SendKeepsOrder(x, x2, y, q, fs);
    forall k | k in x2.streams
      ensures Flow(x2, y, q + fs, k)
    {
      DestroyFlow(x, y, q, id, reason, k);
    }
    ReceiverUnchanged(y, x, x2, r);
  }

  lemma CloseKeeps(x: Session, y: Session, q: seq<Frame>, r: seq<Frame>)
    requires TableExact(x) && Direction(x, y, q) && Direction(y, x, r)
    ensures var x2 := Close(x);
      TableExact(x2) && Bookkeeping(x, x2) && Direction(x2, y, q) && Direction(y, x2, r)
  {
    var x2 := Close(x);
    forall k | k in x2.streams
      ensures Flow(x2, y, q, k)
    {
      assert Flow(x, y, q, k);
    }
    ReceiverUnchanged(y, x, x2, r);
  }

  // ---------- A delivery ----------

  /** Nothing but RESETs follows a stream's END or RESET. */
  lemma HeadIsLast(q: seq<Frame>, id: StreamId)
    requires q != [] && Ordered(q) && q[0].streamId == id && (q[0].kind.FrameEnd? || q[0].kind.FrameReset?)
    ensures !InFlight(q[1..], FrameData, id) && !InFlight(q[1..], FrameEnd, id)
  {
    forall i | 0 <= i < |q[1..]| && q[1..][i].streamId == id
      ensures q[1..][i].kind.FrameReset?
    {
      assert q[1..][i] == q[i + 1];
    }
  }

  /** What `y` may assume of the frame at the head of its incoming queue. */
  ghost predicate Expected(y: Session, f: Frame) {
    y.closed || (if f.kind.FrameOpen? then y.accepts && f.streamId !in y.streams else f.streamId in y.streams)
  }

  function Handle(y: Session, f: Frame): (Session, seq<Frame>)
    requires y.table <= y.streams.Keys
  {
    if y.closed then (y, []) else ReceiveFrame(y, f)
  }

  /** A live stream after one frame of its own. */
  function Taken(t: Stream, f: Frame): Stream {
    match f.kind
    case FrameOpen => t
    case FrameData => if t.remoteEnded then t else t.(received := t.received + f.payload)
    case FrameEnd => t.(remoteEnded := true)
    case FrameReset => t.(wasReset := true)
  }

  /** `y` changes at most the stream the frame names, and by its kind alone. */
  lemma HandleEffect(y: Session, f: Frame)
    requires TableExact(y) && Expected(y, f)
    ensures var (y2, fs) := Handle(y, f); var id := f.streamId;
      && TableExact(y2) && y2.closed == y.closed
      && |fs| <= 1 && (fs != [] ==> fs[0].kind.FrameReset? && fs[0].streamId == id && !f.kind.FrameReset?)
      && y.streams.Keys <= y2.streams.Keys <= y.streams.Keys + {id}
      && (forall k :: k in y.streams && k != id ==> y2.streams[k] == y.streams[k] && (k in y.table <==> k in y2.table))
      && (id in y.table && !y.closed ==> fs == [] && y2.streams[id] == Taken(y.streams[id], f))
      && (id !in y.table && id in y.streams ==>
            y2.streams[id] == y.streams[id] && id !in y2.table && (fs != [] <==> !y.closed && !f.kind.FrameReset?))
      && (id !in y.streams && !y.closed ==> y2.streams == y.streams[id := NEW_STREAM] && id in y2.table && fs == [])
      && (y.closed ==> y2 == y && fs == [])
  {
  }

  lemma DeliverOther(x: Session, y: Session, y2: Session, q: seq<Frame>, k: StreamId)
    requires q != [] && q[0].streamId != k && k in x.streams && Flow(x, y, q, k)
    requires y2.closed == y.closed && (k in y.streams <==> k in y2.streams) && (k in y.table <==> k in y2.table)
    requires k in y.streams ==> y2.streams[k] == y.streams[k]
    ensures Flow(x, y2, q[1..], k)
  {
    Dequeue(q, k);
  }

  lemma DeliverLast(x: Session, y: Session, y2: Session, q: seq<Frame>, k: StreamId)
    requires q != [] && q[0].streamId == k && k in x.streams && Flow(x, y, q, k)
    requires Ordered(q) && (q[0].kind.FrameEnd? || q[0].kind.FrameReset?)
    requires y2.closed == y.closed && k in y.table && k in y.streams && k in y2.streams && !y.closed
    requires k in y2.table ==> q[0].kind.FrameEnd?
    requires y2.streams[k].received == y.streams[k].received
    requires y2.streams[k].remoteEnded == (y.streams[k].remoteEnded || q[0].kind.FrameEnd?)
    ensures Flow(x, y2, q[1..], k)
  {
    Dequeue(q, k);
    HeadIsLast(q, k);
    PayloadEmpty(q[1..], k);
  }

  /** `x`'s frames as `y` takes the first of them. */
  lemma DeliverFlow(x: Session, y: Session, y2: Session, q: seq<Frame>, k: StreamId)
    requires TableExact(y) && q != [] && Ordered(q) && Expected(y, q[0])
    requires y2 == Handle(y, q[0]).0
    requires k in x.streams && Flow(x, y, q, k)
    ensures Flow(x, y2, q[1..], k)
  {
    hide Handle;
    HandleEffect(y, q[0]);
    var f := q[0];
    if f.streamId != k {
      DeliverOther(x, y, y2, q, k);
    } else if k in y.table && (f.kind.FrameEnd? || f.kind.FrameReset?) {
      DeliverLast(x, y, y2, q, k);
    } else {
      Dequeue(q, k);
    }
  }

  /** `y`'s own frames as it takes a frame from `x`. */
  lemma AnswerFlow(x: Session, y: Session, q: seq<Frame>, r: seq<Frame>, k: StreamId)
    requires TableExact(x) && TableExact(y) && q != [] && Expected(y, q[0])
    requires q[0].streamId in x.streams && Flow(x, y, q, q[0].streamId)
    requires k in y.streams && Flow(y, x, r, k)
    ensures var (y2, fs) := Handle(y, q[0]); Flow(y2, x, r + fs, k)
  {
    hide Handle;
    var (y2, fs) := Handle(y, q[0]);
    HandleEffect(y, q[0]);
    Enqueue(r, fs, k);
    Dequeue(q, q[0].streamId);
  }

  /** A stream `y` has just accepted: nothing of it has moved the other way yet. */
  lemma AcceptedFlow(x: Session, y: Session, f: Frame, r: seq<Frame>, id: StreamId)
    requires TableExact(y) && id !in y.streams && !y.closed && y.accepts && f.kind.FrameOpen? && f.streamId == id
    requires forall i :: 0 <= i < |r| ==> r[i].streamId in y.streams
    requires id in x.streams && x.streams[id].received == [] && !x.streams[id].remoteEnded
    ensures Flow(Handle(y, f).0, x, r, id)
  {
    assert forall kind :: !InFlight(r, kind, id);
    PayloadEmpty(r, id);
  }

  lemma DeliverKeeps(x: Session, y: Session, q: seq<Frame>, r: seq<Frame>)
    requires TableExact(x) && TableExact(y) && Direction(x, y, q) && Direction(y, x, r)
    requires q != [] && Expected(y, q[0])
    requires q[0].kind.FrameOpen? ==>
      x.streams[q[0].streamId].received == [] && !x.streams[q[0].streamId].remoteEnded
    ensures var (y2, fs) := Handle(y, q[0]);
      TableExact(y2) && Direction(x, y2, q[1..]) && Direction(y2, x, r + fs)
  {
    hide Handle, Flow, InFlight;
    var f := q[0];
    var (y2, fs) := Handle(y, f);
    HandleEffect(y, f);
    forall k | k in x.streams
      ensures Flow(x, y2, q[1..], k)
    {
      DeliverFlow(x, y, y2, q, k);
    }
    SendKeepsOrder(y, y2, x, r, fs);
    forall k | k in y2.streams
      ensures Flow(y2, x, r + fs, k)
    {
      if k in y.streams {
        AnswerFlow(x, y, q, r, k);
      } else {
        AcceptedFlow(x, y, f, r, k);
        assert r + fs == r;
      }
    }
  }

  // ---------- The system ----------

  lemma OpenFlow(x: Session, y: Session, q: seq<Frame>, id: StreamId, k: StreamId)
    requires !x.closed && id !in x.streams && id !in y.streams
    requires forall i :: 0 <= i < |q| ==> q[i].streamId in x.streams
    requires k != id ==> k in x.streams && Flow(x, y, q, k)
    ensures var (x2, fs) := Open(x, id); k in x2.streams && Flow(x2, y, q + fs, k)
  {
    var (x2, fs) := Open(x, id);
    Enqueue(q, fs, k);
    if k == id {
      assert forall kind :: !InFlight(q, kind, id);
      PayloadEmpty(q, id);
    }
  }

  function Other(side: Side): Side {
    if side == Orchestrator then Agent else Orchestrator
  }

  /** A side's own operation, seen from the whole link. */
  lemma Assemble(l: Link, side: Side, s2: Session, fs: seq<Frame>)
    requires Inv(l) && |fs| <= 1 && (fs != [] ==> !fs[0].kind.FrameOpen?)
    requires TableExact(s2) && Bookkeeping(End(l, side), s2)
    requires Direction(s2, End(l, Other(side)), Incoming(l, Other(side)) + fs)
    requires Direction(End(l, Other(side)), s2, Incoming(l, side))
    ensures Inv(Update(l, side, (s2, fs)))
  {
    forall k
      ensures InFlight(l.toAgent + fs, FrameOpen, k) <==> InFlight(l.toAgent, FrameOpen, k)
      ensures InFlight(l.toOrchestrator + fs, FrameOpen, k) <==> InFlight(l.toOrchestrator, FrameOpen, k)
    {
      Enqueue(l.toAgent, fs, k);
      Enqueue(l.toOrchestrator, fs, k);
    }
    assert Opens(Update(l, side, (s2, fs)));
  }

  lemma WriteStep(l: Link, side: Side, id: StreamId, chunk: seq<byte>)
    requires Inv(l) && id in End(l, side).streams && !End(l, side).streams[id].localEnded
    ensures Inv(Update(l, side, WriteChunk(End(l, side), id, chunk)))
  {
    var (s2, fs) := WriteChunk(End(l, side), id, chunk);
    WriteKeeps(End(l, side), End(l, Other(side)), Incoming(l, Other(side)), Incoming(l, side), id, chunk);
    Assemble(l, side, s2, fs);
  }

  lemma FinalStep(l: Link, side: Side, id: StreamId)
    requires Inv(l) && id in End(l, side).streams && !End(l, side).streams[id].localEnded
    ensures Inv(Update(l, side, Final(End(l, side), id)))
  {
    var (s2, fs) := Final(End(l, side), id);
    FinalKeeps(End(l, side), End(l, Other(side)), Incoming(l, Other(side)), Incoming(l, side), id);
    Assemble(l, side, s2, fs);
  }

  lemma DestroyStep(l: Link, side: Side, id: StreamId, reason: seq<byte>)
    requires Inv(l) && id in End(l, side).streams
    ensures Inv(Update(l, side, Destroy(End(l, side), id, reason)))
  {
    var (s2, fs) := Destroy(End(l, side), id, reason);
    DestroyKeeps(End(l, side), End(l, Other(side)), Incoming(l, Other(side)), Incoming(l, side), id, reason);
    Assemble(l, side, s2, fs);
  }

  lemma CloseStep(l: Link, side: Side)
    requires Inv(l)
    ensures Inv(Update(l, side, (Close(End(l, side)), [])))
  {
    var s2 := Close(End(l, side));
    CloseKeeps(End(l, side), End(l, Other(side)), Incoming(l, Other(side)), Incoming(l, side));
    assert Incoming(l, Other(side)) + [] == Incoming(l, Other(side));
    Assemble(l, side, s2, []);
  }

  lemma OpenDirections(x: Session, y: Session, q: seq<Frame>, r: seq<Frame>, id: StreamId)
    requires TableExact(x) && Direction(x, y, q) && Direction(y, x, r)
    requires !x.closed && id !in x.streams && id !in y.streams
    ensures var (x2, fs) := Open(x, id);
      TableExact(x2) && Direction(x2, y, q + fs) && Direction(y, x2, r)
  {
    var (x2, fs) := Open(x, id);
    SendKeepsOrder(x, x2, y, q, fs);
    forall k | k in x2.streams
      ensures Flow(x2, y, q + fs, k)
    {
      OpenFlow(x, y, q, id, k);
    }
    forall k | k in y.streams
      ensures Flow(y, x2, r, k)
    {
      assert Flow(y, x, r, k);
    }
  }

  lemma OpenStep(l: Link, id: StreamId)
    requires Inv(l) && Enabled(l, DoOpen(id))
    ensures Inv(Next(l, DoOpen(id)))
  {
    var x, y, q, r := l.orchestrator, l.agent, l.toAgent, l.toOrchestrator;
    OpenDirections(x, y, q, r, id);
    var (x2, fs) := Open(x, id);
    forall k
      ensures InFlight(q + fs, FrameOpen, k) <==> InFlight(q, FrameOpen, k) || k == id
    {
      Enqueue(q, fs, k);
    }
    assert r + [] == r;
    assert Opens(Link(x2, y, q + fs, r));
  }

  lemma HeadExpected(l: Link, to: Side)
    requires Inv(l) && Incoming(l, to) != []
    ensures Expected(End(l, to), Incoming(l, to)[0])
  {
    var f := Incoming(l, to)[0];
    assert InFlight(Incoming(l, to), f.kind, f.streamId);
    if to == Agent && !l.agent.closed && f.streamId !in l.agent.streams {
      assert InFlight(l.toAgent, FrameOpen, f.streamId);
    }
  }

  lemma DeliverMeansHandle(l: Link, to: Side)
    requires Inv(l) && Incoming(l, to) != []
    ensures Enabled(l, Deliver(to))
    ensures Next(l, Deliver(to)) == Update(Pop(l, to), to, Handle(End(l, to), Incoming(l, to)[0]))
  {
    hide EncodeFrame, DecodeFrame, ReceiveFrame;
    var f := Incoming(l, to)[0];
    DecodeEncode(f.kind, f.streamId, f.payload);
  }

  lemma DeliverToAgentKeeps(l: Link)
    requires Inv(l) && l.toAgent != []
    ensures Enabled(l, Deliver(Agent)) && Inv(Next(l, Deliver(Agent)))
  {
    hide Next, Flow;
    var x, y, q, r := l.orchestrator, l.agent, l.toAgent, l.toOrchestrator;
    HeadExpected(l, Agent);
    DeliverMeansHandle(l, Agent);
    assert InFlight(q, q[0].kind, q[0].streamId);
    DeliverKeeps(x, y, q, r);
    HandleEffect(y, q[0]);
    var (y2, fs) := Handle(y, q[0]);
    forall k
      ensures InFlight(q, FrameOpen, k) <==>
        (q[0].kind.FrameOpen? && q[0].streamId == k) || InFlight(q[1..], FrameOpen, k)
      ensures q[0].streamId == k ==> !InFlight(q[1..], FrameOpen, k)
      ensures !InFlight(r + fs, FrameOpen, k)
    {
      Dequeue(q, k);
      Enqueue(r, fs, k);
      forall i | 0 <= i < |q[1..]| && q[0].streamId == k && q[1..][i].streamId == k
        ensures !q[1..][i].kind.FrameOpen?
      {
        assert q[1..][i] == q[i + 1];
      }
    }
    assert Opens(Link(x, y2, q[1..], r + fs));
  }

  lemma DeliverToOrchestratorKeeps(l: Link)
    requires Inv(l) && l.toOrchestrator != []
    ensures Enabled(l, Deliver(Orchestrator)) && Inv(Next(l, Deliver(Orchestrator)))
  {
    var x, y, q, r := l.agent, l.orchestrator, l.toOrchestrator, l.toAgent;
    HeadExpected(l, Orchestrator);
    DeliverMeansHandle(l, Orchestrator);
    assert InFlight(q, q[0].kind, q[0].streamId);
    DeliverKeeps(x, y, q, r);
    var (y2, fs) := Handle(y, q[0]);
    OrchestratorOpens(l, y2, fs);
  }

  lemma OrchestratorOpens(l: Link, y2: Session, fs: seq<Frame>)
    requires Inv(l) && l.toOrchestrator != [] && Expected(l.orchestrator, l.toOrchestrator[0])
    requires l.toOrchestrator[0].streamId in l.agent.streams && !l.toOrchestrator[0].kind.FrameOpen?
    requires (y2, fs) == Handle(l.orchestrator, l.toOrchestrator[0])
    ensures Opens(Link(y2, l.agent, l.toAgent + fs, l.toOrchestrator[1..]))
  {
    var q := l.toOrchestrator;
    HandleEffect(l.orchestrator, q[0]);
    forall k
      ensures !InFlight(q[1..], FrameOpen, k)
      ensures InFlight(l.toAgent + fs, FrameOpen, k) <==> InFlight(l.toAgent, FrameOpen, k)
    {
      Dequeue(q, k);
      Enqueue(l.toAgent, fs, k);
    }
  }

  /** Every step keeps the invariant. */
  lemma NextKeeps(l: Link, a: Action)
    requires Inv(l) && Enabled(l, a)
    ensures Inv(Next(l, a))
  {
    match a
    case DoOpen(id) => OpenStep(l, id);
    case DoWrite(side, id, chunk) => WriteStep(l, side, id, chunk);
    case DoEnd(side, id) => FinalStep(l, side, id);
    case DoDestroy(side, id, reason) => DestroyStep(l, side, id, reason);
    case DoClose(side) => CloseStep(l, side);
    case Deliver(to) =>
      if to == Agent { DeliverToAgentKeeps(l); } else { DeliverToOrchestratorKeeps(l); }
  }

  lemma InitialInv()
    ensures Inv(INITIAL)
  {
  }

  lemma {:induction false} RunKeeps(l: Link, acts: seq<Action>)
    requires Inv(l) && Possible(l, acts)
    ensures Inv(Run(l, acts))
    decreases |acts|
  {
    if acts != [] {
      var past := acts[..|acts| - 1];
      RunKeeps(l, past);
      NextKeeps(Run(l, past), acts[|acts| - 1]);
    }
  }
}
