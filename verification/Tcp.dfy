/** TcpNetworking: queues, sending with partial writes, receiving into per-socket buffers. */
module Tcp {
  import opened Wrappers
  import opened Bytes
  import opened Integers
  import opened Der
  import opened PacketTypes
  import opened PacketCodec
  import opened Framing
  import opened Sessions
  import opened Outgoing
  import opened Sending
  import opened Asn1

  function Joined(chunks: seq<bytes>): bytes {
    if |chunks| == 0 then [] else Joined(chunks[..|chunks| - 1]) + chunks[|chunks| - 1]
  }

  /** One epoll event as the receiving thread finds it. */
  datatype Arrival =
    | HungUp(socket: int)
    | Readable(socket: int, chunks: seq<bytes>, end: RecvEnd)

  /** What clears the connected flag: a hang-up of any socket, or a peer that has closed. */
  ghost predicate Disconnects(a: Arrival) {
    a.HungUp? || a.end == PeerClosed
  }

  function EventOf(a: Arrival): SocketEvent {
    match a
    case HungUp(socket) => SocketEvent(socket, Hangup)
    case Readable(socket, chunks, end) => SocketEvent(socket, Ready(Call(Joined(chunks), end)))
  }

  function Events(arrivals: seq<Arrival>): seq<SocketEvent> {
    seq(|arrivals|, i requires 0 <= i < |arrivals| => EventOf(arrivals[i]))
  }

  /** The maps agree, an absent socket counting as one with nothing buffered. */
  ghost predicate SameBuffers(a: map<int, bytes>, b: map<int, bytes>) {
    forall s :: BufferOf(a, s) == BufferOf(b, s)
  }

  /** `after` is `before` with the given octets at one socket, and no other change. */
  ghost predicate OnlyAt(before: map<int, bytes>, after: map<int, bytes>, socket: int, content: bytes) {
    SameBuffers(after, before[socket := content])
  }

  lemma WriteAgain(before: map<int, bytes>, after: map<int, bytes>, socket: int, content: bytes, more: bytes)
    requires OnlyAt(before, after, socket, content)
    ensures BufferOf(after, socket) == content
    ensures OnlyAt(before, after[socket := more], socket, more)
  {
    assert BufferOf(before[socket := content], socket) == content;
    var rewritten := after[socket := more];
    forall s ensures BufferOf(rewritten, s) == BufferOf(before[socket := more], s) {
      if s != socket {
        assert BufferOf(after, s) == BufferOf(before[socket := content], s) == BufferOf(before, s);
      }
    }
  }

  lemma OnlyAtTrans(a: map<int, bytes>, b: map<int, bytes>, c: map<int, bytes>, socket: int, v: bytes, w: bytes)
    requires OnlyAt(a, b, socket, v) && OnlyAt(b, c, socket, w)
    ensures OnlyAt(a, c, socket, w)
  {
    WriteAgain(a, b, socket, v, w);
  }

  lemma Untouched(before: map<int, bytes>, socket: int)
    ensures OnlyAt(before, before, socket, BufferOf(before, socket))
  {
  }

  lemma SameAfterWrite(a: map<int, bytes>, b: map<int, bytes>, after: map<int, bytes>, socket: int, content: bytes)
    requires SameBuffers(a, b) && OnlyAt(a, after, socket, content)
    ensures SameBuffers(after, b[socket := content])
    ensures BufferOf(a, socket) == BufferOf(b, socket)
  {
    forall s ensures BufferOf(after, s) == BufferOf(b[socket := content], s) {
      assert BufferOf(after, s) == BufferOf(a[socket := content], s);
      assert BufferOf(a, s) == BufferOf(b, s);
    }
  }

  lemma SameAfterErase(a: map<int, bytes>, b: map<int, bytes>, socket: int)
    requires SameBuffers(a, b)
    ensures SameBuffers(a - {socket}, b - {socket})
  {
    forall s ensures BufferOf(a - {socket}, s) == BufferOf(b - {socket}, s) {
      assert BufferOf(a, s) == BufferOf(b, s);
    }
  }

  /** One socket's octets have grown by these, and no other's have changed. */
  ghost predicate Grew(before: map<int, bytes>, after: map<int, bytes>, socket: int, octets: bytes) {
    OnlyAt(before, after, socket, BufferOf(before, socket) + octets)
  }

  lemma GrewByNothing(wire: map<int, bytes>, socket: int)
    ensures forall octets: bytes :: octets == [] ==> Grew(wire, wire, socket, octets)
  {
    Untouched(wire, socket);
    assert BufferOf(wire, socket) + [] == BufferOf(wire, socket);
  }

  lemma GrewMore(a: map<int, bytes>, b: map<int, bytes>, c: map<int, bytes>, socket: int, x: bytes, y: bytes)
    requires Grew(a, b, socket, x)
    requires Grew(b, c, socket, y)
    ensures Grew(a, c, socket, x + y)
  {
    hide OnlyAt, BufferOf;
    var start := BufferOf(a, socket);
    WriteAgain(a, b, socket, start + x, start + x + y);
    Associative(start, x, y);
    OnlyAtTrans(a, b, c, socket, start + x, start + x + y);
  }

  /** Growth is by one sequence of octets only. */
  lemma GrewByOne(before: map<int, bytes>, after: map<int, bytes>, socket: int, x: bytes, y: bytes)
    requires Grew(before, after, socket, x)
    ensures BufferOf(after, socket) == BufferOf(before, socket) + x
    ensures Grew(before, after, socket, y) <==> x == y
  {
    hide OnlyAt, BufferOf;
    var start := BufferOf(before, socket);
    WriteAgain(before, after, socket, start + x, []);
    if Grew(before, after, socket, y) {
      WriteAgain(before, after, socket, start + y, []);
      assert (start + x)[|start|..] == x && (start + y)[|start|..] == y;
    }
  }

  class TcpNetworking {
    var connected: bool
    var requestQueue: seq<Packet>
    var responseQueue: seq<Packet>
    var autoId: nat
    var sessionBuffers: map<int, bytes>
    var wire: map<int, bytes> // the octets each socket's send calls have accepted
    var sends: nat            // how many send calls there have been

    constructor ()
      ensures connected && requestQueue == [] && responseQueue == [] && autoId == 0
      ensures sessionBuffers == map[] && wire == map[] && sends == 0
    {
      connected, requestQueue, responseQueue, autoId := true, [], [], 0;
      sessionBuffers, wire, sends := map[], map[], 0;
    }

    // ---------- queues ----------

    method PushRequest(request: Packet)
      modifies this`requestQueue
      ensures requestQueue == old(requestQueue) + [request]
    {
      requestQueue := requestQueue + [request];
    }

    method PushResponse(response: Packet)
      modifies this`responseQueue
      ensures responseQueue == old(responseQueue) + [response]
    {
      responseQueue := responseQueue + [response];
    }

    /** The wait before a pop ends with a packet queued, as long as there is no disconnect. */
    method PopRequest() returns (firstRequest: Packet)
      requires requestQueue != []
      modifies this`requestQueue
      ensures [firstRequest] + requestQueue == old(requestQueue)
    {
      firstRequest := requestQueue[0];
      requestQueue := requestQueue[1..];
    }

    method PopResponse() returns (firstResponse: Packet)
      requires responseQueue != []
      modifies this`responseQueue
      ensures [firstResponse] + responseQueue == old(responseQueue)
    {
      firstResponse := responseQueue[0];
      responseQueue := responseQueue[1..];
    }

    /** The echo server's loop, polling `turns` times: requests become responses, in order. */
    method ClientManager(turns: nat)
      modifies this`requestQueue, this`responseQueue
      ensures responseQueue + requestQueue == old(responseQueue + requestQueue)
      ensures |requestQueue| == if turns < old(|requestQueue|) then old(|requestQueue|) - turns else 0
    {
      ghost var all := responseQueue + requestQueue;
      for turn := 0 to turns
        invariant responseQueue + requestQueue == all
        invariant |requestQueue| == if turn < old(|requestQueue|) then old(|requestQueue|) - turn else 0
      {
        if requestQueue != [] {
          var packet := PopRequest();
          assert responseQueue + [packet] + requestQueue == all;
          PushResponse(packet);
        }
      }
    }

    // ---------- sending ----------

    /** One send call: it fails, or accepts as much of what it is offered as there is room for. */
    method Send(socket: int, data: bytes, room: nat -> int) returns (sent: int)
      requires data != []
      modifies this`wire, this`sends
      ensures sends == old(sends) + 1
      ensures sent == if room(old(sends)) < |data| then room(old(sends)) else |data|
      ensures sent <= 0 ==> wire == old(wire)
      ensures sent > 0 ==> Grew(old(wire), wire, socket, data[..sent])
    {
      sent := room(sends);
      sends := sends + 1;
      if sent > |data| {
        sent := |data|;
      }
      if sent > 0 {
        wire := wire[socket := BufferOf(wire, socket) + data[..sent]];
      }
    }

    /** The wire gets what the send calls accept before one fails; max means that was all. */
    method SendBytes(socket: int, buffer: bytes, room: nat -> int) returns (r: int)
      modifies this`wire, this`sends
      ensures var p := Push(|buffer|, room, old(sends));
        && sends == old(sends) + p.calls
        && Grew(old(wire), wire, socket, buffer[..p.written])
        && r == if p.written == |buffer| then |buffer| else -1
    {
      hide *;
      var sentBytes: nat := 0;
      ghost var all := Push(|buffer|, room, sends);
      GrewByNothing(wire, socket);
      while sentBytes < |buffer|
        invariant sentBytes <= |buffer|
        invariant sends >= old(sends)
        invariant var rest := Push(|buffer| - sentBytes, room, sends);
          all == Progress(sentBytes + rest.written, sends - old(sends) + rest.calls)
        invariant Grew(old(wire), wire, socket, buffer[..sentBytes])
        decreases |buffer| - sentBytes
      {
        ghost var wire1 := wire;
        PushOnce(|buffer| - sentBytes, room, sends);
        var sent := Send(socket, buffer[sentBytes..], room);
        if sent <= 0 {
          return -1;
        }
        GrewMore(old(wire), wire1, wire, socket, buffer[..sentBytes], buffer[sentBytes..][..sent]);
        NextPart(buffer, sentBytes, sent);
        sentBytes := sentBytes + sent;
      }
      PushOnce(0, room, sends);
      return sentBytes;
    }

    /**
     * The results of both sendBytes calls are ignored, so 0 is returned even when octets are
     * missing; the frame is whole on the wire exactly when no send call has failed.
     */
    method SendMessage(socket: int, id: int32, payload: Payload, room: nat -> int) returns (code: int)
      requires id == -1 ==> autoId < TWO_31 - 1
      requires Sendable(Numbered(Packet(id, payload), autoId))
      modifies this`wire, this`sends, this`autoId
      ensures autoId == old(autoId) + if id == -1 then 1 else 0
      ensures var packet := Numbered(Packet(id, payload), old(autoId));
        var attempt := SendSpec(packet, room, old(sends));
        && code == attempt.code == (if payload.File? && |payload.table| == 0 then -1 else 0)
        && sends == old(sends) + attempt.calls
        && Grew(old(wire), wire, socket, attempt.octets)
        && (NoneFails(room, old(sends), attempt.calls) <==> Grew(old(wire), wire, socket, FrameOf(packet)))
    {
      hide EncodeSpec, Header, FrameOf, Grew, Push, NoneFails, SendSpec, Sendable, Fits, BuffersPresent;
      var id' := id;
      if id' == NO_ID {
        id' := autoId;
        autoId := autoId + 1;
      }
      ghost var packet, first := Packet(id', payload), sends;
      WholeFrame(packet, room, first);
      var encoded := Encode(payload, id') by { SendableFits(packet); }
      EncodedIsSent(packet, encoded, room, first);
      if encoded.Failure? {
        GrewByNothing(wire, socket);
        GrewByOne(wire, wire, socket, [], FrameOf(packet));
        return -1;
      }
      var buffer := encoded.value;
      var size := Header(|buffer|);
      ghost var head := Push(4, room, first);
      ghost var tail := Push(|buffer|, room, first + head.calls);
      var _ := SendBytes(socket, size, room);
      ghost var wire1 := wire;
      var _ := SendBytes(socket, buffer, room);
      GrewMore(old(wire), wire1, wire, socket, size[..head.written], buffer[..tail.written]);
      GrewByOne(old(wire), wire, socket, size[..head.written] + buffer[..tail.written], FrameOf(packet));
      code := 0;
    }

    method SendPacket(socket: int, packet: Packet, room: nat -> int) returns (code: int)
      requires packet.id == -1 ==> autoId < TWO_31 - 1
      requires Sendable(Numbered(packet, autoId))
      modifies this`wire, this`sends, this`autoId
      ensures autoId == old(autoId) + if packet.id == -1 then 1 else 0
      ensures var sent := Numbered(packet, old(autoId));
        var attempt := SendSpec(sent, room, old(sends));
        && code == attempt.code == (if packet.payload.File? && |packet.payload.table| == 0 then -1 else 0)
        && sends == old(sends) + attempt.calls
        && Grew(old(wire), wire, socket, attempt.octets)
        && (NoneFails(room, old(sends), attempt.calls) <==> Grew(old(wire), wire, socket, FrameOf(sent)))
    {
      hide SendSpec, FrameOf, Grew, NoneFails, Sendable;
      code := SendMessage(socket, packet.id, packet.payload, room);
    }

    /** `turns` rounds of the client's sending thread: pop the oldest request and send it. */
    method SendRequestSession(socket: int, turns: nat, room: nat -> int)
      requires turns <= |requestQueue|
      requires AutoAfter(autoId, requestQueue[..turns]) < TWO_31
      requires AllSendable(Assigned(autoId, requestQueue[..turns]))
      modifies this`requestQueue, this`wire, this`sends, this`autoId
      ensures requestQueue == old(requestQueue[turns..])
      ensures autoId == old(AutoAfter(autoId, requestQueue[..turns]))
      ensures var packets := old(Assigned(autoId, requestQueue[..turns]));
        var sent := SendAll(packets, room, old(sends));
        && sends == old(sends) + sent.calls
        && Grew(old(wire), wire, socket, sent.octets)
        && (NoneFails(room, old(sends), sent.calls) <==> Grew(old(wire), wire, socket, Stream(packets)))
    {
      hide FrameOf, Stream, SendSpec, SendAll, MissesComponent, BufferOf, Sendable, Grew, NoneFails;
      ghost var auto0, queue, first := autoId, requestQueue, sends;
      NothingToSend(auto0, queue, room, first);
      GrewByNothing(wire, socket);
      for turn := 0 to turns
        invariant requestQueue == queue[turn..]
        invariant AutoAfter(auto0, queue[..turn]) < TWO_31 && autoId == AutoAfter(auto0, queue[..turn])
        invariant var sent := SendAll(Assigned(auto0, queue[..turn]), room, first);
          sends == first + sent.calls && Grew(old(wire), wire, socket, sent.octets)
      {
        ghost var packet := NextTurn(auto0, queue, turn, turns, room, first);
        ghost var sent := SendAll(Assigned(auto0, queue[..turn]), room, first);
        ghost var attempt, wire1 := SendSpec(packet, room, sends), wire;
        var firstRequest := PopRequest();
        RestOfQueue(queue, turn, firstRequest, requestQueue);
        var responseCode := SendPacket(socket, firstRequest, room);
        GrewMore(old(wire), wire1, wire, socket, sent.octets, attempt.octets);
      }
      ghost var packets := Assigned(auto0, queue[..turns]);
      AllFramesWhole(packets, room, first);
      GrewByOne(old(wire), wire, socket, SendAll(packets, room, first).octets, Stream(packets));
    }

    // ---------- receiving ----------

    /** Reads all there is, in chunks of whatever sizes, then takes at most one frame off the buffer. */
    method ReceiveMessage(socket: int, chunks: seq<bytes>, end: RecvEnd) returns (data: Packet)
      modifies this`sessionBuffers, this`connected
      ensures var (buffer, taken) :=
          ReceiveStep(old(BufferOf(sessionBuffers, socket)), Call(Joined(chunks), end));
        OnlyAt(old(sessionBuffers), sessionBuffers, socket, buffer) && data == Returned(taken)
      ensures end.PeerClosed? || end.Failed? ==>
        && data.id == -1
        && OnlyAt(old(sessionBuffers), sessionBuffers, socket, old(BufferOf(sessionBuffers, socket)) + Joined(chunks))
      ensures connected == (old(connected) && !end.PeerClosed?)
    {
      hide DecodeSpec, OnlyAt, BufferOf, BigEndian, ReceiveStep, Returned, TakeFrame, DEFAULT_PACKET, Joined, IsEncoding;
      data := DEFAULT_PACKET;
      NothingReturned();
      StepByEnd(BufferOf(sessionBuffers, socket), Joined(chunks));
      ghost var buffers0, before := sessionBuffers, BufferOf(sessionBuffers, socket);
      Untouched(sessionBuffers, socket);
      NoChunks(before, chunks);
      for i := 0 to |chunks|
        invariant OnlyAt(buffers0, sessionBuffers, socket, before + Joined(chunks[..i]))
        invariant connected == old(connected)
      {
        ChunkAppended(buffers0, sessionBuffers, socket, before, chunks, i);
        sessionBuffers := sessionBuffers[socket := BufferOf(sessionBuffers, socket) + chunks[i]];
      }
      assert chunks[..|chunks|] == chunks;
      match end {
        case Failed => return;
        case PeerClosed =>
          connected := false;
          return;
        case _ =>
      }

      var buffer := BufferOf(sessionBuffers, socket);
      WriteAgain(buffers0, sessionBuffers, socket, before + Joined(chunks), []);
      StepOnParse(before, Joined(chunks), end);
      if |buffer| < 4 {
        return;
      }
      var derLen := BigEndian(buffer[..4]);
      if |buffer| < 4 + derLen {
        return;
      }
      var derBuffer := buffer[4..4 + derLen];
      WriteAgain(buffers0, sessionBuffers, socket, before + Joined(chunks), buffer[4 + derLen..]);
      sessionBuffers := sessionBuffers[socket := buffer[4 + derLen..]];
      var decoded := Decode(derBuffer);
      ReturnedIs(derBuffer);
      if decoded.Success? {
        data := decoded.value;
      }
    }

    /** One batch of epoll events in the server's receiving thread. */
    method ReceiveRequestSession(arrivals: seq<Arrival>)
      modifies this`sessionBuffers, this`connected, this`requestQueue
      ensures var many := RunMany(old(sessionBuffers), Events(arrivals));
        && SameBuffers(sessionBuffers, many.buffers)
        && requestQueue == old(requestQueue) + PacketsOf(many.packets)
      ensures connected == (old(connected) && forall i :: 0 <= i < |arrivals| ==> !Disconnects(arrivals[i]))
    {
      hide ReceiveStep, Returned, Queued, Joined, SameBuffers, OnlyAt, BufferOf, RunMany, DEFAULT_PACKET;
      ghost var buffers0, queue0 := sessionBuffers, requestQueue;
      SameAsItself(buffers0);
      RunNothing(buffers0, arrivals);
      for index := 0 to |arrivals|
        invariant var many := RunMany(buffers0, Events(arrivals[..index]));
          && SameBuffers(sessionBuffers, many.buffers)
          && requestQueue == queue0 + PacketsOf(many.packets)
        invariant connected == (old(connected) && forall i :: 0 <= i < index ==> !Disconnects(arrivals[i]))
      {
        ghost var many, before := RunMany(buffers0, Events(arrivals[..index])), sessionBuffers;
        RunManySnoc(buffers0, arrivals, index);
        match arrivals[index] {
          case HungUp(fd) =>
            TagAdds(many.packets, fd, Queued(None));
            QueuedIs(DEFAULT_PACKET, None) by { NothingReturned(); }
            SameAfterErase(sessionBuffers, many.buffers, fd);
            sessionBuffers := sessionBuffers - {fd};
            connected := false;
          case Readable(fd, chunks, end) =>
            var packet := ReceiveMessage(fd, chunks, end);
            ghost var step := ReceiveStep(BufferOf(before, fd), Call(Joined(chunks), end));
            QueuedIs(packet, step.1);
            SameAfterWrite(before, many.buffers, sessionBuffers, fd, step.0);
            TagAdds(many.packets, fd, Queued(step.1));
            if packet.id != NO_ID {
              PushRequest(packet);
            }
        }
      }
      assert arrivals[..|arrivals|] == arrivals;
    }
  }

  lemma NoChunks(before: bytes, chunks: seq<bytes>)
    ensures before + Joined(chunks[..0]) == before
  {
  }

  lemma ChunkAppended(
    buffers: map<int, bytes>, now: map<int, bytes>, socket: int, before: bytes, chunks: seq<bytes>, i: nat)
    requires i < |chunks| && OnlyAt(buffers, now, socket, before + Joined(chunks[..i]))
    ensures OnlyAt(buffers, now[socket := BufferOf(now, socket) + chunks[i]], socket, before + Joined(chunks[..i + 1]))
  {
    hide OnlyAt, BufferOf;
    assert chunks[..i + 1][..i] == chunks[..i];
    WriteAgain(buffers, now, socket, before + Joined(chunks[..i]), before + Joined(chunks[..i + 1]));
    Associative(before, Joined(chunks[..i]), chunks[i]);
  }

  lemma StepOnParse(before: bytes, received: bytes, end: RecvEnd)
    requires end.WouldBlock? || end.Stopped?
    ensures var buffer, step := before + received, ReceiveStep(before, Call(received, end));
      if |buffer| < 4 || |buffer| < 4 + BigEndian(buffer[..4]) then step == (buffer, None)
      else
        var derLen := BigEndian(buffer[..4]);
        step == (buffer[4 + derLen..], Some(buffer[4..4 + derLen]))
  {
    hide BigEndian;
  }

  lemma ReturnedIs(body: bytes)
    ensures Returned(None) == DEFAULT_PACKET
    ensures Returned(Some(body))
      == if DecodeSpec(body).Success? then DecodeSpec(body).value else DEFAULT_PACKET
  {
    hide DecodeSpec;
  }

  lemma TagAdds(ts: seq<Tagged>, socket: int, ps: seq<Packet>)
    ensures PacketsOf(ts + Tag(socket, ps)) == PacketsOf(ts) + ps
  {
  }

  lemma SameAsItself(a: map<int, bytes>)
    ensures SameBuffers(a, a)
  {
  }

  lemma SendableFits(p: Packet)
    requires Sendable(p)
    ensures BuffersPresent(p.payload) && Fits(p)
  {
  }

  /** The attempt to send a packet in terms of what encoding it returned. */
  lemma EncodedIsSent(p: Packet, encoded: Result<bytes, CodecError>, room: nat -> int, first: nat)
    requires encoded == EncodeSpec(p)
    ensures encoded.Failure? ==> SendSpec(p, room, first) == Attempt(-1, [], 0)
    ensures encoded.Success? ==>
      var head := Push(4, room, first);
      var tail := Push(|encoded.value|, room, first + head.calls);
      SendSpec(p, room, first) == Attempt(0,
        Header(|encoded.value|)[..head.written] + encoded.value[..tail.written], head.calls + tail.calls)
  {
    hide TreeOf, TreeDer, Header, Push;
  }

  lemma NextPart(buffer: bytes, i: nat, n: nat)
    requires i + n <= |buffer|
    ensures buffer[..i + n] == buffer[..i] + buffer[i..][..n]
  {
  }

  lemma RestOfQueue(queue: seq<Packet>, turn: nat, first: Packet, rest: seq<Packet>)
    requires turn < |queue| && [first] + rest == queue[turn..]
    ensures first == queue[turn] && rest == queue[turn + 1..]
  {
    assert first == ([first] + rest)[0];
    assert ([first] + rest)[1..] == rest;
    assert queue[turn..][1..] == queue[turn + 1..];
  }

  lemma NothingToSend(auto: nat, queue: seq<Packet>, room: nat -> int, first: nat)
    requires auto < TWO_31
    ensures AutoAfter(auto, queue[..0]) == auto
    ensures SendAll(Assigned(auto, queue[..0]), room, first) == Sent([], 0)
  {
  }

  /** What one more turn of the sending thread adds to ids and octets. */
  lemma NextTurn(auto: nat, queue: seq<Packet>, turn: nat, turns: nat, room: nat -> int, first: nat)
    returns (packet: Packet)
    requires turn < turns <= |queue|
    requires AutoAfter(auto, queue[..turns]) < TWO_31
    requires AllSendable(Assigned(auto, queue[..turns]))
    ensures var p, next := queue[turn], AutoAfter(auto, queue[..turn]);
      && AutoAfter(auto, queue[..turn + 1]) < TWO_31 && next < TWO_31
      && AutoAfter(auto, queue[..turn + 1]) == next + (if p.id == -1 then 1 else 0)
      && packet == Numbered(p, next)
      && Sendable(packet)
    ensures var sent := SendAll(Assigned(auto, queue[..turn]), room, first);
      var attempt := SendSpec(packet, room, first + sent.calls);
      SendAll(Assigned(auto, queue[..turn + 1]), room, first)
        == Sent(sent.octets + attempt.octets, sent.calls + attempt.calls)
  {
    hide *;
    var p, all := queue[turn], queue[..turns];
    assert queue[..turn + 1] == queue[..turn] + [p];
    assert all[..turn + 1] == queue[..turn + 1] && all[..turn] == queue[..turn] && all[turn] == p;
    AutoAfterMonotone(auto, all, turn + 1);
    AssignedSnoc(auto, queue[..turn], p);
    AssignedAt(auto, all, turn);
    packet := Assigned(auto, all)[turn];
    AssignedIsSendable(all, auto, turn);
    SendAllSnoc(Assigned(auto, queue[..turn]), packet, room, first);
  }

  lemma AssignedIsSendable(queue: seq<Packet>, auto: nat, turn: nat)
    requires AutoAfter(auto, queue) < TWO_31 && turn < |queue| && AllSendable(Assigned(auto, queue))
    ensures Sendable(Assigned(auto, queue)[turn])
  {
    hide Sendable;
  }

  lemma RunNothing(buffers: map<int, bytes>, arrivals: seq<Arrival>)
    ensures RunMany(buffers, Events(arrivals[..0])) == Many(buffers, [])
  {
  }

  lemma RunManySnoc(buffers: map<int, bytes>, arrivals: seq<Arrival>, index: nat)
    requires index < |arrivals|
    ensures var m, e := RunMany(buffers, Events(arrivals[..index])), EventOf(arrivals[index]);
      var (after, taken) := StepEvent(BufferOf(m.buffers, e.socket), e.event);
      RunMany(buffers, Events(arrivals[..index + 1])) == Many(
        if e.event.Hangup? then m.buffers - {e.socket} else m.buffers[e.socket := after],
        m.packets + Tag(e.socket, Queued(taken)))
  {
    hide StepEvent, Queued, EventOf;
    var now := Events(arrivals[..index + 1]);
    assert now[..|now| - 1] == Events(arrivals[..index]);
  }
}
