/** Two link sessions joined by two ordered channels. A session's operations are
    pure functions returning the new session and the frames it hands to its
    socket; `Run` interleaves them with deliveries in any order. */
module LinkProtocol {
  import opened Wrappers
  import opened Frames

  const MAX_ID: StreamId := 0xffff_ffff

  /** What a LinkStream is about: its three flags, and the histories of what its
      owner wrote and of what it pushed to its reader. */
  datatype Stream = Stream(
    localEnded: bool,
    remoteEnded: bool,
    wasReset: bool,
    sent: seq<byte>,
    received: seq<byte>
  )

  const NEW_STREAM := Stream(false, false, false, [], [])

  /** `streams` holds every stream ever created here, `table` the ids not yet
      forgotten, `accepts` whether the session was given an onOpen handler. */
  datatype Session = Session(
    accepts: bool,
    streams: map<StreamId, Stream>,
    table: set<StreamId>,
    nextId: StreamId,
    closed: bool
  )

  function NewSession(accepts: bool): Session {
    Session(accepts, map[], {}, 1, false)
  }

  // ---------- Session operations ----------

  const STREAM_REFUSED: seq<byte> := [115, 116, 114, 101, 97, 109, 32, 114, 101, 102, 117, 115, 101, 100]
  const UNKNOWN_STREAM: seq<byte> := [117, 110, 107, 110, 111, 119, 110, 32, 115, 116, 114, 101, 97, 109]

  /** The id `k` places after `n` in the cycle 1, 2, …, 2^32-1, 1, … */
  function CyclicId(n: StreamId, k: nat): StreamId
    requires 1 <= n
  {
    (n - 1 + k) % MAX_ID + 1
  }

  function SuccessorId(n: StreamId): StreamId {
    if n >= MAX_ID then 1 else n + 1
  }

  lemma NextInCycle(x: nat)
    ensures (x + 1) % MAX_ID == if x % MAX_ID == MAX_ID - 1 then 0 else x % MAX_ID + 1
  {
    var laps: nat := x / MAX_ID;
    assert x == laps * MAX_ID + x % MAX_ID;
  }

  /** The counter walks the cycle of ids. */
  lemma SuccessorIsCyclic(n: StreamId, k: nat)
    requires 1 <= n
    ensures SuccessorId(CyclicId(n, k)) == CyclicId(n, k + 1)
  {
    NextInCycle(n - 1 + k);
    assert n - 1 + k + 1 == n - 1 + (k + 1);
  }

  /** `id` is the first id from `nextId` on that is not in the table. */
  ghost predicate Allocates(nextId: StreamId, table: set<StreamId>, id: StreamId) {
    1 <= nextId && id !in table &&
    exists k: nat :: id == CyclicId(nextId, k) && forall j: nat :: j < k ==> CyclicId(nextId, j) in table
  }

  function Open(s: Session, id: StreamId): (Session, seq<Frame>) {
    (s.(streams := s.streams[id := NEW_STREAM], table := s.table + {id}, nextId := SuccessorId(id)),
     Send(s, Frame(FrameOpen, id, [])))
  }

  function Send(s: Session, f: Frame): seq<Frame> {
    if s.closed then [] else [f]
  }

  function Put(s: Session, id: StreamId, t: Stream): Session {
    s.(streams := s.streams[id := t])
  }

  function Forget(s: Session, id: StreamId): Session {
    s.(table := s.table - {id})
  }

  function Settle(s: Session, id: StreamId): Session
    requires id in s.streams
  {
    if s.streams[id].localEnded && s.streams[id].remoteEnded then Forget(s, id) else s
  }

  function RemoteData(s: Session, id: StreamId, payload: seq<byte>): Session
    requires id in s.streams
  {
    var t := s.streams[id];
    if t.remoteEnded then s else Put(s, id, t.(received := t.received + payload))
  }

  function RemoteEnd(s: Session, id: StreamId): Session
    requires id in s.streams
  {
    var t := s.streams[id];
    if t.remoteEnded then s else Settle(Put(s, id, t.(remoteEnded := true)), id)
  }

  function RemoteReset(s: Session, id: StreamId): Session
    requires id in s.streams
  {
    var t := s.streams[id];
    if t.wasReset then s else Forget(Put(s, id, t.(wasReset := true)), id)
  }

  /** The frame opens a stream this session takes. */
  predicate Accepts(s: Session, f: Frame) {
    f.kind.FrameOpen? && s.accepts && f.streamId !in s.table
  }

  function ReceiveFrame(s: Session, f: Frame): (Session, seq<Frame>)
    requires s.table <= s.streams.Keys
  {
    var id := f.streamId;
    if f.kind == FrameOpen then
      if id in s.table || !s.accepts then (s, [ResetFrame(id, STREAM_REFUSED)])
      else (s.(streams := s.streams[id := NEW_STREAM], table := s.table + {id}), [])
    else if id !in s.table then
      (s, if f.kind == FrameReset then [] else [ResetFrame(id, UNKNOWN_STREAM)])
    else if f.kind == FrameData then (RemoteData(s, id, f.payload), [])
    else if f.kind == FrameEnd then (RemoteEnd(s, id), [])
    else (RemoteReset(s, id), [])
  }

  function Receive(s: Session, data: Message): (Session, seq<Frame>)
    requires s.table <= s.streams.Keys
  {
    if s.closed then (s, [])
    else match DecodeFrame(data)
      case None => (s, [])
      case Some(f) => ReceiveFrame(s, f)
  }

  function WriteChunk(s: Session, id: StreamId, chunk: seq<byte>): (Session, seq<Frame>)
    requires id in s.streams
  {
    var t := s.streams[id];
    if t.wasReset then (s, [])
    else (Put(s, id, t.(sent := t.sent + chunk)), Send(s, Frame(FrameData, id, chunk)))
  }

  function Final(s: Session, id: StreamId): (Session, seq<Frame>)
    requires id in s.streams
  {
    var t := s.streams[id];
    (Settle(Put(s, id, t.(localEnded := true)), id), if t.wasReset then [] else Send(s, Frame(FrameEnd, id, [])))
  }

  function Destroy(s: Session, id: StreamId, reason: seq<byte>): (Session, seq<Frame>)
    requires id in s.streams
  {
    var t := s.streams[id];
    if !t.wasReset && !(t.localEnded && t.remoteEnded) then
      (Forget(Put(s, id, t.(wasReset := true)), id), Send(s, ResetFrame(id, reason)))
    else (Forget(s, id), [])
  }

  function Close(s: Session): Session {
    if s.closed then s
    else s.(closed := true, table := {},
            streams := map id | id in s.streams ::
              if id in s.table then s.streams[id].(wasReset := true) else s.streams[id])
  }

  // ---------- The two-ended system ----------

  datatype Side = Orchestrator | Agent

  /** `toAgent` and `toOrchestrator` are the frames sent and not yet delivered. */
  datatype Link = Link(orchestrator: Session, agent: Session, toAgent: seq<Frame>, toOrchestrator: seq<Frame>)

  datatype Action =
    | DoOpen(id: StreamId)
    | DoWrite(side: Side, id: StreamId, chunk: seq<byte>)
    | DoEnd(side: Side, id: StreamId)
    | DoDestroy(side: Side, id: StreamId, reason: seq<byte>)
    | DoClose(side: Side)
    | Deliver(to: Side)

  const INITIAL := Link(NewSession(false), NewSession(true), [], [])

  function End(l: Link, side: Side): Session {
    if side == Orchestrator then l.orchestrator else l.agent
  }

  function Incoming(l: Link, side: Side): seq<Frame> {
    if side == Orchestrator then l.toOrchestrator else l.toAgent
  }

  /** `side` becomes `r.0` and the frames `r.1` join its outgoing channel. */
  function Update(l: Link, side: Side, r: (Session, seq<Frame>)): Link {
    if side == Orchestrator then l.(orchestrator := r.0, toAgent := l.toAgent + r.1)
    else l.(agent := r.0, toOrchestrator := l.toOrchestrator + r.1)
  }

  function Pop(l: Link, side: Side): Link
    requires Incoming(l, side) != []
  {
    if side == Orchestrator then l.(toOrchestrator := l.toOrchestrator[1..]) else l.(toAgent := l.toAgent[1..])
  }

  /** What the application and the network may do. A Duplex neither writes nor
      finishes again once finished; an id is not handed out twice in a run. */
  ghost predicate Enabled(l: Link, a: Action) {
    match a
    case DoOpen(id) =>
      !l.orchestrator.closed && id !in l.orchestrator.streams &&
      Allocates(l.orchestrator.nextId, l.orchestrator.table, id)
    case DoWrite(side, id, _) => id in End(l, side).streams && !End(l, side).streams[id].localEnded
    case DoEnd(side, id) => id in End(l, side).streams && !End(l, side).streams[id].localEnded
    case DoDestroy(side, id, _) => id in End(l, side).streams
    case DoClose(side) => true
    case Deliver(to) => Incoming(l, to) != [] && End(l, to).table <= End(l, to).streams.Keys
  }

  /** A delivery hands the peer the encoded bytes, never the frame itself. */
  ghost function Next(l: Link, a: Action): Link
    requires Enabled(l, a)
  {
    match a
    case DoOpen(id) => Update(l, Orchestrator, Open(l.orchestrator, id))
    case DoWrite(side, id, chunk) => Update(l, side, WriteChunk(End(l, side), id, chunk))
    case DoEnd(side, id) => Update(l, side, Final(End(l, side), id))
    case DoDestroy(side, id, reason) => Update(l, side, Destroy(End(l, side), id, reason))
    case DoClose(side) => Update(l, side, (Close(End(l, side)), []))
    case Deliver(to) => Update(Pop(l, to), to, Receive(End(l, to), Encode(Incoming(l, to)[0])))
  }

  /** `acts` can be performed from `l`, one after the other. */
  ghost predicate Possible(l: Link, acts: seq<Action>)
    decreases |acts|, 0
  {
    acts == [] ||
    (Possible(l, acts[..|acts| - 1]) && Enabled(Run(l, acts[..|acts| - 1]), acts[|acts| - 1]))
  }

  ghost function Run(l: Link, acts: seq<Action>): Link
    requires Possible(l, acts)
    decreases |acts|, 1
  {
    if acts == [] then l else Next(Run(l, acts[..|acts| - 1]), acts[|acts| - 1])
  }
}
