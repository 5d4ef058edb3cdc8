/**
 * What a run of receiveMessage calls makes of the bytes that arrive: at most one frame per
 * call, a reassembly buffer per socket, and frames that do not decode dropped whole.
 */
module Sessions {
  import opened Wrappers
  import opened Bytes
  import opened Integers
  import opened Der
  import opened Framing
  import opened PacketTypes
  import opened PacketCodec

  /** Why a call stopped reading. */
  datatype RecvEnd =
    | WouldBlock // nothing more to read for now
    | Stopped    // the connected flag was found cleared
    | Failed     // recv reported another error
    | PeerClosed // recv returned 0

  /** One receiveMessage call: the bytes its recv calls returned, and how reading ended. */
  datatype Call = Call(received: bytes, end: RecvEnd)

  predicate ReachesParse(end: RecvEnd) {
    end.WouldBlock? || end.Stopped?
  }

  /** The buffer after a call, and the frame body it took, if any. */
  function ReceiveStep(buffer: bytes, call: Call): (bytes, Option<bytes>) {
    var filled := buffer + call.received;
    if !ReachesParse(call.end) then (filled, None)
    else match TakeFrame(filled)
      case None => (filled, None)
      case Some((body, rest)) => (rest, Some(body))
  }

  /**
   * A call that sees the peer close, or recv fail, keeps what it has read and takes nothing.
   * One that stops for want of octets or of a connection takes the first frame if it is whole.
   */
  lemma StepByEnd(buffer: bytes, received: bytes)
    ensures ReceiveStep(buffer, Call(received, PeerClosed)) == (buffer + received, None)
    ensures ReceiveStep(buffer, Call(received, Failed)) == (buffer + received, None)
    ensures ReceiveStep(buffer, Call(received, Stopped)) == ReceiveStep(buffer, Call(received, WouldBlock))
    ensures forall body: bytes, rest: bytes :: |body| < TWO_32 && buffer + received == Frame(body) + rest ==>
      ReceiveStep(buffer, Call(received, WouldBlock)) == (rest, Some(body))
    ensures ReceiveStep(buffer, Call(received, WouldBlock)).1.None? ==>
      ReceiveStep(buffer, Call(received, WouldBlock)).0 == buffer + received
  {
    hide TakeFrame, Frame;
    forall body: bytes, rest: bytes | |body| < TWO_32 && buffer + received == Frame(body) + rest
      ensures ReceiveStep(buffer, Call(received, WouldBlock)) == (rest, Some(body))
    {
      TakeFrameOf(body, rest);
    }
  }

  /** A socket's history: the frame bodies extracted so far and its buffer. */
  datatype Session = Session(extracted: seq<bytes>, buffer: bytes)

  const FRESH := Session([], [])

  function StepSession(s: Session, call: Call): Session {
    var (buffer, taken) := ReceiveStep(s.buffer, call);
    Session(if taken.Some? then s.extracted + [taken.value] else s.extracted, buffer)
  }

  function RunCalls(calls: seq<Call>): Session {
    if |calls| == 0 then FRESH
    else StepSession(RunCalls(calls[..|calls| - 1]), calls[|calls| - 1])
  }

  function Received(calls: seq<Call>): bytes {
    if |calls| == 0 then []
    else Received(calls[..|calls| - 1]) + calls[|calls| - 1].received
  }

  // ---------- framing refinement ----------

  /** One call: the frames taken, with their headers, and the buffer absorb what it received. */
  lemma StepConserves(s: Session, call: Call)
    requires FitHeader(s.extracted)
    ensures var t := StepSession(s, call);
      Frames(t.extracted) + t.buffer == Frames(s.extracted) + (s.buffer + call.received) && FitHeader(t.extracted)
  {
    hide TakeFrame, Frame, Frames;
    var filled := s.buffer + call.received;
    if ReachesParse(call.end) && TakeFrame(filled).Some? {
      TakeFrameIs(filled);
      var (body, rest) := TakeFrame(filled).value;
      FramesSnoc(s.extracted, body);
      assert Frames(s.extracted) + Frame(body) + rest == Frames(s.extracted) + (Frame(body) + rest);
    }
  }

  lemma {:induction false} FramingConservation(calls: seq<Call>)
    ensures var s := RunCalls(calls);
      Frames(s.extracted) + s.buffer == Received(calls) && FitHeader(s.extracted)
  {
    if |calls| == 0 {
      assert Frames([]) == [];
    } else {
      hide TakeFrame, Frame, Frames, StepSession, FitHeader;
      var init, call := calls[..|calls| - 1], calls[|calls| - 1];
      FramingConservation(init);
      var before := RunCalls(init);
      StepConserves(before, call);
      Associative(Frames(before.extracted), before.buffer, call.received);
    }
  }

  /**
   * Whatever the chunking: the frames taken so far, with their headers, and the buffer
   * make up all bytes received, and the buffer holds exactly the frames still to take.
   */
  lemma FramingRefinement(calls: seq<Call>)
    ensures var s := RunCalls(calls);
      && Frames(s.extracted) + s.buffer == Received(calls)
      && FitHeader(s.extracted)
      && Greedy(Received(calls)).bodies == s.extracted + Greedy(s.buffer).bodies
  {
    hide *;
    FramingConservation(calls);
    var s := RunCalls(calls);
    GreedyAfterFrames(s.extracted, s.buffer);
  }

  /** Of two runs over the same stream one has taken all frames the other has, and in order. */
  lemma ChunkBoundariesDoNotMatter(a: seq<Call>, b: seq<Call>)
    requires Received(a) <= Received(b)
    ensures RunCalls(a).extracted <= RunCalls(b).extracted || RunCalls(b).extracted <= RunCalls(a).extracted
  {
    hide TakeFrame, Frame, Frames, Greedy, RunCalls, Received;
    FramingRefinement(a);
    FramingRefinement(b);
    var more := Received(b)[|Received(a)|..];
    assert Received(b) == Received(a) + more;
    GreedyExtends(Received(a), more);
    var all := Greedy(Received(b)).bodies;
    assert RunCalls(a).extracted <= all && RunCalls(b).extracted <= all;
  }

  // ---------- the backlog law ----------

  /** For each call that reached the parse: the complete frames received by then. */
  function Arrivals(calls: seq<Call>): seq<nat> {
    if |calls| == 0 then []
    else
      var before := Arrivals(calls[..|calls| - 1]);
      if ReachesParse(calls[|calls| - 1].end) then before + [|Greedy(Received(calls)).bodies|]
      else before
  }

  /** e is the least of a[s] + (t - s) over 0 <= s <= t, where t is the last index of a. */
  ghost predicate IsLeastDelay(e: nat, a: seq<nat>)
    requires |a| > 0
  {
    && (forall s :: 0 <= s < |a| ==> e <= a[s] + (|a| - 1 - s))
    && (exists s :: 0 <= s < |a| && e == a[s] + (|a| - 1 - s))
  }

  /** One more parsing call: either a frame is taken or none was complete. */
  lemma TakenOrCaughtUp(init: seq<Call>, call: Call)
    ensures var before, after := RunCalls(init), RunCalls(init + [call]);
      var complete := |Greedy(Received(init + [call])).bodies|;
      |after.extracted| == if !ReachesParse(call.end) then |before.extracted|
                           else if complete < |before.extracted| + 1 then complete
                           else |before.extracted| + 1
  {
    var calls := init + [call];
    assert calls[..|calls| - 1] == init;
    FramingRefinement(init);
    FramingRefinement(calls);
    var filled := RunCalls(init).buffer + call.received;
    if TakeFrame(filled).None? {
      assert Greedy(filled).bodies == [];
    }
  }

  /** At most one frame per call: the number taken after t parsing calls, exactly. */
  lemma {:induction false} BacklogLaw(calls: seq<Call>)
    ensures IsLeastDelay(|RunCalls(calls).extracted|, [0] + Arrivals(calls))
  {
    var e, a := |RunCalls(calls).extracted|, [0] + Arrivals(calls);
    if |calls| == 0 {
      assert e == a[0] + 0;
    } else {
      var init, call := calls[..|calls| - 1], calls[|calls| - 1];
      BacklogLaw(init);
      assert calls == init + [call];
      TakenOrCaughtUp(init, call);
      var e0, a0 := |RunCalls(init).extracted|, [0] + Arrivals(init);
      if ReachesParse(call.end) {
        var complete := |Greedy(Received(calls)).bodies|;
        assert a == a0 + [complete];
        var s :| 0 <= s < |a0| && e0 == a0[s] + (|a0| - 1 - s);
        assert e == if complete < e0 + 1 then complete else e0 + 1;
        assert a[s] + (|a| - 1 - s) == e0 + 1 && a[|a| - 1] == complete;
      } else {
        assert a == a0;
      }
    }
  }

  /** The frames that have come in since any parsing call are no more than the calls since. */
  ghost predicate CallsKeepUp(a: seq<nat>)
    requires |a| > 0
  {
    forall s :: 0 <= s < |a| ==> a[|a| - 1] <= a[s] + (|a| - 1 - s)
  }

  /** Every complete frame is taken exactly when there were calls enough since every moment. */
  lemma NoBacklog(calls: seq<Call>)
    ensures var a := [0] + Arrivals(calls);
      |RunCalls(calls).extracted| == a[|a| - 1] <==> CallsKeepUp(a)
  {
    hide RunCalls, Arrivals;
    BacklogLaw(calls);
    var a := [0] + Arrivals(calls);
    assert a[|a| - 1] == a[|a| - 1] + (|a| - 1 - (|a| - 1));
  }

  ghost predicate AtMostOneNew(a: seq<nat>) {
    forall i, j :: 0 <= i < |a| - 1 && j == i + 1 ==> a[j] <= a[i] + 1
  }

  /** In particular when no parsing call finds more than one new frame. */
  lemma OneNewFrameEach(calls: seq<Call>)
    requires AtMostOneNew([0] + Arrivals(calls))
    ensures |RunCalls(calls).extracted| == ([0] + Arrivals(calls))[|Arrivals(calls)|]
  {
    hide RunCalls, Arrivals;
    NoBacklog(calls);
    var a := [0] + Arrivals(calls);
    forall s | 0 <= s < |a| ensures a[|a| - 1] <= a[s] + (|a| - 1 - s) {
      SlowGrowth(a, s);
    }
  }

  /** Two frames read by one call: the second stays where it is until there is another call. */
  lemma SecondFrameWaits(first: bytes, second: bytes)
    requires FitHeader([first, second])
    ensures RunCalls([Call(Frame(first) + Frame(second), WouldBlock)]) == Session([first], Frame(second))
    ensures TakeFrame(Frame(second)).Some?
  {
    hide TakeFrame, Frame;
    var call := Call(Frame(first) + Frame(second), WouldBlock);
    assert first == [first, second][0] && second == [first, second][1];
    TakeFrameOf(first, Frame(second));
    TakeFrameOf(second, []);
    assert Frame(second) + [] == Frame(second);
    assert [call][..0] == [] && [] + call.received == call.received;
    assert RunCalls([call][..0]) == FRESH;
  }

  lemma {:induction false} SlowGrowth(a: seq<nat>, s: nat)
    requires s < |a| && AtMostOneNew(a)
    ensures a[|a| - 1] <= a[s] + (|a| - 1 - s)
    decreases |a| - s
  {
    if s < |a| - 1 { SlowGrowth(a, s + 1); }
  }

  // ---------- frames that do not decode ----------

  /** What receiveMessage returns for the frame it took, if it took one. */
  function Returned(taken: Option<bytes>): Packet {
    match taken
    case None => DEFAULT_PACKET
    case Some(body) =>
      match DecodeSpec(body)
      case Success(packet) => packet
      case Failure(_) => DEFAULT_PACKET
  }

  lemma NothingReturned()
    ensures Returned(None) == DEFAULT_PACKET && DEFAULT_PACKET.id == -1
  {
  }

  /** A body that the receivers make a packet of: an encoding, and not of an id read as -1. */
  ghost predicate IsPacket(body: bytes) {
    exists t: Tree :: IsEncodingOf(t, body) && ReadInt(t.id) != -1
  }

  /** The receivers keep a returned packet unless its id is the sentinel. */
  predicate Good(body: bytes) {
    Returned(Some(body)).id != NO_ID
  }

  /** The packets the receivers queue for a run of frames. */
  function Delivered(bodies: seq<bytes>): seq<Packet> {
    if |bodies| == 0 then []
    else
      var before, body := Delivered(bodies[..|bodies| - 1]), bodies[|bodies| - 1];
      if Good(body) then before + [Returned(Some(body))] else before
  }

  /** Frames that are no encoding come back as the default packet, and are dropped for its id. */
  lemma GoodIsPacket(body: bytes)
    ensures Good(body) <==> IsPacket(body)
    ensures !IsEncoding(body) ==> Returned(Some(body)) == DEFAULT_PACKET && !IsPacket(body)
  {
    hide IsEncodingOf, ParseTree, PayloadOf, ReadInt;
    AcceptsExactlyEncodings(body);
    DecodeFails(body);
    if ParseTree(body).Some? {
      assert IsEncodingOf(ParseTree(body).value, body) by { AcceptedIsEncoded(body); }
    }
  }

  ghost function OnlyGood(bodies: seq<bytes>): seq<bytes> {
    if |bodies| == 0 then []
    else
      var before, body := OnlyGood(bodies[..|bodies| - 1]), bodies[|bodies| - 1];
      if IsPacket(body) then before + [body] else before
  }

  lemma DeliveredSnoc(bodies: seq<bytes>, body: bytes)
    ensures Delivered(bodies + [body]) == Delivered(bodies) + if Good(body) then [Returned(Some(body))] else []
    ensures OnlyGood(bodies + [body]) == OnlyGood(bodies) + if IsPacket(body) then [body] else []
  {
    hide Good, IsPacket, Returned;
    assert (bodies + [body])[..|bodies|] == bodies;
  }

  lemma FitHeaderSnoc(bodies: seq<bytes>, body: bytes)
    ensures FitHeader(bodies + [body]) <==> FitHeader(bodies) && |body| < TWO_32
    ensures bodies + [] == bodies
  {
    if FitHeader(bodies + [body]) {
      assert forall i :: 0 <= i < |bodies| ==> (bodies + [body])[i] == bodies[i];
      assert (bodies + [body])[|bodies|] == body;
    }
  }

  lemma {:induction false} DeliveredIgnoresBad(bodies: seq<bytes>)
    ensures Delivered(bodies) == Delivered(OnlyGood(bodies))
    ensures |Delivered(bodies)| == |OnlyGood(bodies)|
    ensures FitHeader(bodies) ==> FitHeader(OnlyGood(bodies))
  {
    if |bodies| > 0 {
      hide Delivered, OnlyGood, Good, IsPacket, Returned, FitHeader;
      FitHeaderSnoc(bodies[..|bodies| - 1], bodies[|bodies| - 1]);
      FitHeaderSnoc(OnlyGood(bodies[..|bodies| - 1]), bodies[|bodies| - 1]);
      var init, body := bodies[..|bodies| - 1], bodies[|bodies| - 1];
      assert bodies == init + [body];
      DeliveredIgnoresBad(init);
      GoodIsPacket(body);
      DeliveredSnoc(init, body);
      DeliveredSnoc(OnlyGood(init), body);
    }
  }

  lemma {:induction false} DeliveredPrefix(bodies: seq<bytes>, k: nat)
    requires k <= |bodies|
    ensures Delivered(bodies[..k]) <= Delivered(bodies)
  {
    if k < |bodies| {
      var init := bodies[..|bodies| - 1];
      DeliveredPrefix(init, k);
      assert init[..k] == bodies[..k];
    } else {
      assert bodies[..k] == bodies;
    }
  }

  /** Over any part of a stream of whole frames, the frames taken are its first frames. */
  lemma StreamPrefix(bodies: seq<bytes>, calls: seq<Call>)
    requires FitHeader(bodies) && Received(calls) <= Frames(bodies)
    ensures RunCalls(calls).extracted <= bodies
  {
    hide TakeFrame, Frame, Frames, RunCalls, Received, Greedy;
    FramingRefinement(calls);
    var more := Frames(bodies)[|Received(calls)|..];
    assert Received(calls) + more == Frames(bodies);
    GreedyExtends(Received(calls), more);
    GreedyOfFrames(bodies);
  }

  /** With the whole stream received and no complete frame buffered, all were taken. */
  lemma AllTaken(bodies: seq<bytes>, calls: seq<Call>)
    requires FitHeader(bodies) && Received(calls) == Frames(bodies)
    requires TakeFrame(RunCalls(calls).buffer).None?
    ensures RunCalls(calls).extracted == bodies
  {
    hide TakeFrame, Frame, Frames, RunCalls, Received;
    FramingRefinement(calls);
    GreedyOfFrames(bodies);
    assert Greedy(RunCalls(calls).buffer).bodies == [];
  }

  /**
   * A stream of good and bad frames: any run over any part of it delivers a prefix of what
   * the stream without the bad frames carries, and once every frame is taken, all of it,
   * as does any run that takes every frame of the cleaned stream.
   */
  lemma BadFrameIsolation(bodies: seq<bytes>, calls: seq<Call>, cleaned: seq<Call>)
    requires FitHeader(bodies) && Received(calls) <= Frames(bodies)
    requires Received(cleaned) == Frames(OnlyGood(bodies))
    requires TakeFrame(RunCalls(cleaned).buffer).None?
    ensures var taken, n := RunCalls(calls).extracted, |RunCalls(calls).extracted|;
      && taken <= bodies
      && Delivered(taken) == Delivered(OnlyGood(bodies[..n]))
      && Delivered(taken) <= Delivered(RunCalls(cleaned).extracted)
      && (n == |bodies| ==> Delivered(taken) == Delivered(RunCalls(cleaned).extracted))
  {
    hide *;
    StreamPrefix(bodies, calls);
    var taken := RunCalls(calls).extracted;
    assert taken == bodies[..|taken|];
    DeliveredIgnoresBad(taken);
    DeliveredIgnoresBad(bodies);
    DeliveredPrefix(bodies, |taken|);
    AllTaken(OnlyGood(bodies), cleaned);
    assert |taken| == |bodies| ==> taken == bodies;
  }

  // ---------- many sockets ----------

  /** An epoll event: a hang-up drops the socket's buffer, readiness leads to one call. */
  datatype Event = Hangup | Ready(call: Call)

  datatype SocketEvent = SocketEvent(socket: int, event: Event)

  function BufferOf(buffers: map<int, bytes>, socket: int): bytes {
    if socket in buffers then buffers[socket] else []
  }

  function StepEvent(buffer: bytes, event: Event): (bytes, Option<bytes>) {
    match event
    case Hangup => ([], None)
    case Ready(call) => ReceiveStep(buffer, call)
  }

  /** The packets queued for one event. */
  function Queued(taken: Option<bytes>): (ps: seq<Packet>)
    ensures |ps| <= 1
  {
    if Returned(taken).id == NO_ID then [] else [Returned(taken)]
  }

  lemma QueuedIs(packet: Packet, taken: Option<bytes>)
    requires packet == Returned(taken)
    ensures Queued(taken) == if packet.id == -1 then [] else [packet]
    ensures Queued(None) == []
  {
    hide Returned;
    NothingReturned();
  }

  datatype Socket = Socket(buffer: bytes, packets: seq<Packet>)

  /** One socket's events alone. */
  function RunSocket(buffer: bytes, events: seq<Event>): Socket {
    if |events| == 0 then Socket(buffer, [])
    else
      var s := RunSocket(buffer, events[..|events| - 1]);
      var (after, taken) := StepEvent(s.buffer, events[|events| - 1]);
      Socket(after, s.packets + Queued(taken))
  }

  /** A hang-up drops what is buffered and yields nothing; a socket reused starts empty. */
  lemma HangupDropsBuffer(buffer: bytes, events: seq<Event>)
    ensures RunSocket(buffer, events + [Hangup]) == Socket([], RunSocket(buffer, events).packets)
  {
    hide ReceiveStep, DecodeSpec;
    var longer := events + [Hangup];
    assert longer[..|longer| - 1] == events && longer[|longer| - 1] == Hangup;
    NothingReturned();
    assert RunSocket(buffer, events).packets + [] == RunSocket(buffer, events).packets;
  }

  function AllReady(calls: seq<Call>): (es: seq<Event>)
    ensures |es| == |calls|
  {
    seq(|calls|, i requires 0 <= i < |calls| => Ready(calls[i]))
  }

  /** A socket that does not hang up: its events are a run of calls, its packets those delivered. */
  lemma {:induction false} AloneIsRun(calls: seq<Call>)
    ensures RunSocket([], AllReady(calls))
      == Socket(RunCalls(calls).buffer, Delivered(RunCalls(calls).extracted))
  {
    hide ReceiveStep, Returned;
    if |calls| > 0 {
      var init, call := calls[..|calls| - 1], calls[|calls| - 1];
      AloneIsRun(init);
      assert AllReady(calls)[..|calls| - 1] == AllReady(init);
      var before := RunCalls(init);
      var (_, taken) := ReceiveStep(before.buffer, call);
      QueuedIsDelivered(before.extracted, taken);
    }
  }

  lemma QueuedIsDelivered(extracted: seq<bytes>, taken: Option<bytes>)
    ensures Delivered(extracted) + Queued(taken)
      == Delivered(if taken.Some? then extracted + [taken.value] else extracted)
  {
    if taken.Some? {
      assert (extracted + [taken.value])[..|extracted|] == extracted;
    }
  }

  type Tagged = Addressed<int>

  datatype Many = Many(buffers: map<int, bytes>, packets: seq<Tagged>)

  function Tag(socket: int, packets: seq<Packet>): (t: seq<Tagged>)
    ensures |t| == |packets|
  {
    seq(|packets|, i requires 0 <= i < |packets| => Addressed(socket, packets[i]))
  }

  /** All sockets' events interleaved, over one map of buffers. */
  function RunMany(buffers: map<int, bytes>, events: seq<SocketEvent>): Many {
    if |events| == 0 then Many(buffers, [])
    else
      var m, e := RunMany(buffers, events[..|events| - 1]), events[|events| - 1];
      var (after, taken) := StepEvent(BufferOf(m.buffers, e.socket), e.event);
      Many(if e.event.Hangup? then m.buffers - {e.socket} else m.buffers[e.socket := after],
           m.packets + Tag(e.socket, Queued(taken)))
  }

  function EventsOf(events: seq<SocketEvent>, socket: int): seq<Event> {
    if |events| == 0 then []
    else
      var before, e := EventsOf(events[..|events| - 1], socket), events[|events| - 1];
      if e.socket == socket then before + [e.event] else before
  }

  function PacketsFrom(packets: seq<Tagged>, socket: int): seq<Packet> {
    if |packets| == 0 then []
    else
      var before, t := PacketsFrom(packets[..|packets| - 1], socket), packets[|packets| - 1];
      if t.peer == socket then before + [t.packet] else before
  }

  /** However events of many sockets interleave, each socket fares as if it were alone. */
  lemma {:induction false} SocketIndependence(buffers: map<int, bytes>, events: seq<SocketEvent>, socket: int)
    ensures var many := RunMany(buffers, events);
      Socket(BufferOf(many.buffers, socket), PacketsFrom(many.packets, socket))
      == RunSocket(BufferOf(buffers, socket), EventsOf(events, socket))
  {
    hide ReceiveStep, Queued, Returned, Tag;
    if |events| > 0 {
      var init, e := events[..|events| - 1], events[|events| - 1];
      SocketIndependence(buffers, init, socket);
      var m := RunMany(buffers, init);
      var (_, taken) := StepEvent(BufferOf(m.buffers, e.socket), e.event);
      TaggedPackets(m.packets, e.socket, Queued(taken), socket);
      if e.socket == socket {
        var own := EventsOf(events, socket);
        assert own[..|own| - 1] == EventsOf(init, socket);
      }
    }
  }

  /**
   * So what is proved of runs of calls holds of every socket among many: one that starts
   * empty and does not hang up ends with the buffer and packets of its own calls' run.
   */
  lemma SocketRunsItsCalls(buffers: map<int, bytes>, events: seq<SocketEvent>, socket: int, calls: seq<Call>)
    requires BufferOf(buffers, socket) == [] && EventsOf(events, socket) == AllReady(calls)
    ensures var many := RunMany(buffers, events);
      && BufferOf(many.buffers, socket) == RunCalls(calls).buffer
      && PacketsFrom(many.packets, socket) == Delivered(RunCalls(calls).extracted)
  {
    SocketIndependence(buffers, events, socket);
    AloneIsRun(calls);
  }

  /** Packets are queued in the order of the events they came with, whatever the sockets. */
  lemma {:induction false} EarlierEventsFirst(buffers: map<int, bytes>, events: seq<SocketEvent>, k: nat)
    requires k <= |events|
    ensures RunMany(buffers, events[..k]).packets <= RunMany(buffers, events).packets
  {
    hide StepEvent, Queued;
    if k < |events| {
      var init := events[..|events| - 1];
      EarlierEventsFirst(buffers, init, k);
      assert init[..k] == events[..k];
    } else {
      assert events[..k] == events;
    }
  }

  lemma TaggedPackets(before: seq<Tagged>, owner: int, queued: seq<Packet>, socket: int)
    requires |queued| <= 1
    ensures PacketsFrom(before + Tag(owner, queued), socket)
      == PacketsFrom(before, socket) + if owner == socket then queued else []
  {
    var all := before + Tag(owner, queued);
    if |queued| == 0 {
      assert all == before;
    } else {
      assert all[..|all| - 1] == before;
    }
  }
}
