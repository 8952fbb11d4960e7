/** Sessions and their streams as objects. Each method is tied to the operation of
    the same name in LinkProtocol, by the state it leaves the session in and by the
    messages it put on the socket. */
module LinkSessions {
  import opened Wrappers
  import opened Frames
  import P = LinkProtocol

  class LinkStream {
    const session: LinkSession
    const streamId: StreamId
    var remoteEnded: bool
    var localEnded: bool
    var wasReset: bool
    var received: seq<byte>        // what was pushed to the reader
    ghost var sent: seq<byte>      // what _write put on the link

    constructor (session: LinkSession, streamId: StreamId)
      ensures this.session == session && this.streamId == streamId
      ensures State() == P.NEW_STREAM
    {
      this.session, this.streamId := session, streamId;
      remoteEnded, localEnded, wasReset := false, false, false;
      sent, received := [], [];
    }

    ghost function State(): P.Stream
      reads this
    {
      P.Stream(localEnded, remoteEnded, wasReset, sent, received)
    }

    method MarkLocalEnded()
      requires session.Owns(this) && session.Valid()
      modifies this`localEnded
      ensures session.Valid() && State() == old(State()).(localEnded := true)
      ensures session.State() == P.Put(old(session.State()), streamId, State())
    {
      localEnded := true;
      assert session.State().streams == old(session.State()).streams[streamId := State()];
    }

    method MarkRemoteEnded()
      requires session.Owns(this) && session.Valid()
      modifies this`remoteEnded
      ensures session.Valid() && State() == old(State()).(remoteEnded := true)
      ensures session.State() == P.Put(old(session.State()), streamId, State())
    {
      remoteEnded := true;
      assert session.State().streams == old(session.State()).streams[streamId := State()];
    }

    method MarkReset()
      requires session.Owns(this) && session.Valid()
      modifies this`wasReset
      ensures session.Valid() && State() == old(State()).(wasReset := true)
      ensures session.State() == P.Put(old(session.State()), streamId, State())
    {
      wasReset := true;
      assert session.State().streams == old(session.State()).streams[streamId := State()];
    }

    ghost method MarkSent(chunk: seq<byte>)
      requires session.Owns(this) && session.Valid()
      modifies this`sent
      ensures session.Valid() && State() == old(State()).(sent := old(sent) + chunk)
      ensures session.State() == P.Put(old(session.State()), streamId, State())
    {
      sent := sent + chunk;
      assert session.State().streams == old(session.State()).streams[streamId := State()];
    }

    method RemoteData(payload: seq<byte>)
      requires session.Owns(this) && session.Valid()
      modifies this
      ensures session.Valid()
      ensures session.State() == P.RemoteData(old(session.State()), streamId, payload)
    {
      if !remoteEnded {
        received := received + payload;
      }
      assert session.State().streams == old(session.State()).streams[streamId := State()];
    }

    method RemoteEnd()
      requires session.Owns(this) && session.Valid()
      modifies this, session`streams
      ensures session.Valid()
      ensures session.State() == P.RemoteEnd(old(session.State()), streamId)
    {
      if !remoteEnded {
        MarkRemoteEnded();
        Settle();
      }
    }

    method RemoteReset(reason: seq<byte>)
      requires session.Owns(this) && session.Valid()
      modifies this, session`streams, session`socket
      ensures session.Valid() && session.socket == old(session.socket)
      ensures session.State() == P.RemoteReset(old(session.State()), streamId)
      ensures State() == old(State()).(wasReset := true)
      ensures session.streams == if old(wasReset) then old(session.streams) else old(session.streams) - {streamId}
    {
      hide P.RemoteReset, P.Destroy, P.Forget, P.Put;
      ResetForgets(session.State(), streamId, reason);
      if !wasReset {
        MarkReset();
        session.Forget(streamId);
        Destroy(reason);
        assert EncodeAll([]) == [];
      } else {
        assert session.State() == old(session.State());
      }
    }

    /** A reset forgets the stream, after which destroying it does nothing more. */
    static lemma ResetForgets(s: P.Session, id: StreamId, reason: seq<byte>)
      requires id in s.streams
      ensures var t := s.streams[id];
        var after := P.Forget(P.Put(s, id, t.(wasReset := true)), id);
        && P.RemoteReset(s, id) == (if t.wasReset then s else after)
        && id in after.streams && P.Destroy(after, id, reason) == (after, [])
    {
      assert s.table - {id} - {id} == s.table - {id};
    }

    /** The Duplex's _write; its error answer when the stream was reset is `ok`. */
    method Write(chunk: seq<byte>) returns (ok: bool)
      requires session.Owns(this) && session.Valid()
      modifies this, session`socket
      ensures session.Valid() && ok == !old(wasReset)
      ensures var (s2, fs) := P.WriteChunk(old(session.State()), streamId, chunk);
        session.State() == s2 && session.socket == old(session.socket) + EncodeAll(fs)
    {
      ok := !wasReset;
      if ok {
        MarkSent(chunk);
        session.Send(EncodeFrame(FrameData, streamId, chunk));
        assert EncodeAll([Frame(FrameData, streamId, chunk)]) == [EncodeFrame(FrameData, streamId, chunk)];
      }
    }

    method Final()
      requires session.Owns(this) && session.Valid()
      modifies this, session`streams, session`socket
      ensures session.Valid()
      ensures var (s2, fs) := P.Final(old(session.State()), streamId);
        session.State() == s2 && session.socket == old(session.socket) + EncodeAll(fs)
    {
      MarkLocalEnded();
      if !wasReset {
        session.Send(EncodeFrame(FrameEnd, streamId, []));
        assert EncodeAll([Frame(FrameEnd, streamId, [])]) == [EncodeFrame(FrameEnd, streamId, [])];
      }
      Settle();
    }

    method Destroy(reason: seq<byte>)
      requires session.Owns(this) && session.Valid()
      modifies this, session`streams, session`socket
      ensures session.Valid()
      ensures var (s2, fs) := P.Destroy(old(session.State()), streamId, reason);
        session.State() == s2 && session.socket == old(session.socket) + EncodeAll(fs)
      ensures old(wasReset) ==> State() == old(State()) && session.streams == old(session.streams) - {streamId}
    {
      if !wasReset && !(localEnded && remoteEnded) {
        MarkReset();
        session.Send(Encode(ResetFrame(streamId, reason)));
        assert EncodeAll([ResetFrame(streamId, reason)]) == [Encode(ResetFrame(streamId, reason))];
      }
      session.Forget(streamId);
    }

    method Settle()
      requires session.Owns(this) && session.Valid()
      modifies session`streams
      ensures session.Valid() && session.State() == P.Settle(old(session.State()), streamId)
    {
      if localEnded && remoteEnded {
        session.Forget(streamId);
      }
    }
  }

  class LinkSession {
    const accepts: bool                          // whether an onOpen handler was given
    var streams: map<StreamId, LinkStream>
    var nextId: StreamId
    var closed: bool
    var socket: seq<Message>                     // everything handed to socket.send
    ghost var created: map<StreamId, LinkStream> // every stream ever made here, by id
    ghost var made: set<LinkStream>              // the same streams as a frame

    ghost predicate Valid()
      reads this, made
    {
      && 1 <= nextId
      && (forall id :: id in streams ==> id in created && created[id] == streams[id])
      && (forall id :: id in created ==>
        created[id].streamId == id && created[id].session == this && created[id] in made)
    }

    /** The stream the table holds under that id. */
    ghost predicate HandedOut(s: LinkStream, id: StreamId)
      reads this
    {
      s.streamId == id && id in streams && streams[id] == s
    }

    ghost predicate Owns(s: LinkStream)
      reads this
    {
      s.streamId in created && created[s.streamId] == s && s.session == this
    }

    ghost function State(): P.Session
      requires Valid()
      reads this, made
    {
      P.Session(accepts, map id | id in created :: created[id].State(), streams.Keys, nextId, closed)
    }

    constructor (accepts: bool)
      ensures Valid() && State() == P.NewSession(accepts) && socket == [] && made == {}
    {
      this.accepts := accepts;
      streams, created, made := map[], map[], {};
      nextId, closed, socket := 1, false, [];
    }

    method Send(frame: Message)
      requires Valid()
      modifies this`socket
      ensures Valid() && State() == old(State())
      ensures socket == old(socket) + (if closed then [] else [frame])
    {
      if !closed {
        socket := socket + [frame];
      }
    }

    method Forget(id: StreamId)
      requires Valid()
      modifies this`streams
      ensures Valid() && State() == P.Forget(old(State()), id) && streams == old(streams) - {id}
    {
      streams := streams - {id};
      assert State().streams == old(State()).streams;
    }

    /** Steps the counter round the cycle of ids until it meets one that is not in
        use; the search ends because some id is free. */
    method AllocateId() returns (id: StreamId)
      requires 1 <= nextId
      requires exists free: StreamId :: 1 <= free && free !in streams
      modifies this`nextId
      ensures 1 <= id <= P.MAX_ID && id !in streams
      ensures P.Allocates(old(nextId), streams.Keys, id) && nextId == P.SuccessorId(id)
    {
      ghost var free: StreamId :| 1 <= free && free !in streams;
      ghost var start, k: nat := nextId, 0;
      ghost var distance: nat := (free - start) % P.MAX_ID;
      Reaches(start, free);
      while true
        invariant nextId == P.CyclicId(start, k) && k <= distance
        invariant forall j: nat :: j < k ==> P.CyclicId(start, j) in streams
        decreases distance - k
      {
        id := nextId;
        nextId := if nextId >= 0xffff_ffff then 1 else nextId + 1;
        P.SuccessorIsCyclic(start, k);
        if id !in streams {
          return;
        }
        k := k + 1;
      }
    }

    static lemma Reaches(start: StreamId, free: StreamId)
      requires 1 <= start && 1 <= free
      ensures P.CyclicId(start, (free - start) % P.MAX_ID) == free
      ensures P.CyclicId(start, 0) == start
    {
    }

    /** A closed link refuses; otherwise the peer is told of a stream whose id no
        open stream has. */
    method Open() returns (stream: Option<LinkStream>)
      requires Valid()
      requires exists free: StreamId :: 1 <= free && free !in streams
      modifies this
      ensures Valid() && stream.Some? == !old(closed)
      ensures stream.None? ==> State() == old(State()) && socket == old(socket)
      ensures stream.Some? ==>
        && var id := stream.value.streamId;
        && fresh(stream.value) && Owns(stream.value)
        && P.Allocates(old(nextId), old(streams.Keys), id)
        && var (s2, fs) := P.Open(old(State()), id);
           State() == s2 && socket == old(socket) + EncodeAll(fs)
    {
      if closed {
        return None;
      }
      var id := AllocateId();
      assert State() == old(State()).(nextId := nextId) by {
        assert State().streams == old(State()).streams;
      }
      var s := Accept(id);
      Send(EncodeFrame(FrameOpen, id, []));
      assert EncodeAll([Frame(FrameOpen, id, [])]) == [EncodeFrame(FrameOpen, id, [])];
      return Some(s);
    }

    /** Decodes and dispatches. A stream opened by the other side is handed out; what
        the onOpen handler does with it are later steps. */
    method Receive(data: Message) returns (accepted: Option<LinkStream>)
      requires Valid()
      modifies this, made
      ensures Valid()
      ensures var (s2, fs) := P.Receive(old(State()), data);
        State() == s2 && socket == old(socket) + EncodeAll(fs)
      ensures accepted.Some? <==>
        !old(closed) && DecodeFrame(data).Some? && P.Accepts(old(State()), DecodeFrame(data).value)
      ensures accepted.Some? ==>
        fresh(accepted.value) && Owns(accepted.value) && HandedOut(accepted.value, DecodeFrame(data).value.streamId)
    {
      accepted := None;
      if closed {
        return;
      }
      var frame := DecodeFrame(data);
      if frame.None? {
        return;
      }
      accepted := HandleFrame(frame.value);
    }

    method HandleFrame(f: Frame) returns (accepted: Option<LinkStream>)
      requires Valid() && !closed
      modifies this, made
      ensures Valid()
      ensures var (s2, fs) := P.ReceiveFrame(old(State()), f);
        State() == s2 && socket == old(socket) + EncodeAll(fs)
      ensures accepted.Some? <==> P.Accepts(old(State()), f)
      ensures accepted.Some? ==>
        fresh(accepted.value) && Owns(accepted.value) && HandedOut(accepted.value, f.streamId)
    {
      accepted := None;
      if f.kind.FrameOpen? {
        if f.streamId in streams || !accepts {
          Refuse(f.streamId, P.STREAM_REFUSED);
        } else {
          var s := Accept(f.streamId);
          accepted := Some(s);
        }
      } else if f.streamId !in streams {
        if !f.kind.FrameReset? {
          Refuse(f.streamId, P.UNKNOWN_STREAM);
        }
      } else if f.kind.FrameData? {
        streams[f.streamId].RemoteData(f.payload);
      } else if f.kind.FrameEnd? {
        streams[f.streamId].RemoteEnd();
      } else {
        streams[f.streamId].RemoteReset(f.payload);
      }
    }

    method Accept(id: StreamId) returns (s: LinkStream)
      requires Valid()
      modifies this`streams, this`created, this`made
      ensures Valid() && fresh(s) && Owns(s) && HandedOut(s, id)
      ensures var before := old(State());
        State() == before.(streams := before.streams[id := P.NEW_STREAM], table := before.table + {id})
    {
      ghost var before := State();
      s := new LinkStream(this, id);
      streams := streams[id := s];
      created, made := created[id := s], made + {s};
      StateIs(before.(streams := before.streams[id := P.NEW_STREAM], table := before.table + {id}));
    }

    method Refuse(id: StreamId, reason: seq<byte>)
      requires Valid() && !closed
      modifies this`socket
      ensures Valid() && State() == old(State())
      ensures socket == old(socket) + EncodeAll([ResetFrame(id, reason)])
    {
      Send(Encode(ResetFrame(id, reason)));
      assert EncodeAll([ResetFrame(id, reason)]) == [Encode(ResetFrame(id, reason))];
    }

    /** Fails whatever the table still holds, silently. */
    method Close(reason: seq<byte>)
      requires Valid()
      modifies this, made
      ensures Valid() && State() == P.Close(old(State())) && socket == old(socket)
    {
      hide P.Close;
      if closed {
        ClosedTwice(State());
        return;
      }
      ghost var before := State();
      ClosedStreams(before);
      CloseStreams(before.streams, reason);
      StateIs(P.Close(before));
    }

    /** Every stream still in the table fails, and the table is emptied. */
    method CloseStreams(ghost was: map<StreamId, P.Stream>, reason: seq<byte>)
      requires Valid() && was == State().streams
      modifies this`closed, this`streams, this`socket, made
      ensures Valid() && closed && streams == map[] && (old(!closed) ==> socket == old(socket))
      ensures forall id :: id in created ==> created[id].State() == Failed(was[id], id in old(streams))
    {
      closed := true;
      FailAll(was, reason);
      streams := map[];
    }

    static lemma ClosedTwice(s: P.Session)
      requires s.closed
      ensures P.Close(s) == s
    {
    }

    /** What closing makes of a session's streams. */
    static lemma ClosedStreams(s: P.Session)
      requires !s.closed
      ensures var r := P.Close(s);
        && r.accepts == s.accepts && r.nextId == s.nextId && r.closed &&
          r.table == {} && r.streams.Keys == s.streams.Keys
        && forall id :: id in s.streams ==> r.streams[id] == Failed(s.streams[id], id in s.table)
    {
    }

    lemma StateIs(s: P.Session)
      requires Valid() && s.accepts == accepts && s.nextId == nextId && s.closed == closed && s.table == streams.Keys
      requires s.streams.Keys == created.Keys
      requires forall id :: id in created ==> s.streams[id] == created[id].State()
      ensures State() == s
    {
      assert State().streams == s.streams;
    }

    /** The streams `ids` minus `left` have failed since they were as in `was`. */
    ghost predicate Failing(was: map<StreamId, P.Stream>, ids: set<StreamId>, left: set<StreamId>)
      reads this, made
    {
      && Valid() && closed && was.Keys == created.Keys
      && (forall id :: id in left ==> id in streams)
      && forall id :: id in created ==> created[id].State() == Failed(was[id], id in ids && id !in left)
    }

    /** Every stream in the table fails; `was` is what the streams were before. */
    method FailAll(ghost was: map<StreamId, P.Stream>, reason: seq<byte>)
      requires closed && Failing(was, streams.Keys, streams.Keys)
      modifies made, this`streams, this`socket
      ensures Failing(was, old(streams.Keys), {}) && socket == old(socket)
    {
      ghost var ids := streams.Keys;
      var left := streams.Keys;
      while left != {}
        invariant Failing(was, ids, left) && left <= ids && socket == old(socket)
      {
        var id :| id in left;
        FailOne(id, reason, was, ids, left);
        left := left - {id};
      }
    }

    method FailOne(id: StreamId, reason: seq<byte>, ghost was: map<StreamId, P.Stream>, ghost ids: set<StreamId>,
                   ghost left: set<StreamId>)
      requires Failing(was, ids, left) && id in left && id in ids
      modifies streams[id], this`streams, this`socket
      ensures Failing(was, ids, left - {id}) && socket == old(socket)
    {
      streams[id].RemoteReset(reason);
    }

    static ghost function Failed(t: P.Stream, reset: bool): P.Stream {
      if reset then t.(wasReset := true) else t
    }
  }
}
