/**
 * One direction of a TCP session: a queue, the thread that sends from it, the octet stream,
 * and the thread that receives into the queue at the other end. The queues' own locking
 * makes each of the steps below atomic; a packet's octets all enter the stream when its
 * send begins and reach the receiver piecemeal, in order, as recv pleases.
 */
module Pipes {
  import opened Wrappers
  import opened Bytes
  import opened Integers
  import opened Der
  import opened PacketTypes
  import opened PacketCodec
  import opened Framing
  import opened Sessions
  import opened Outgoing

  datatype Pipe = Pipe(
    outbox: seq<Packet>,   // waiting to be sent
    autoId: nat,
    stream: bytes,         // all octets sent
    got: nat,              // how many of them the receiver has read
    buffer: bytes,
    hand: Option<Packet>,  // returned by receiveMessage, not queued yet
    inbox: seq<Packet>,
    entered: seq<Packet>,  // history: all packets ever queued for sending
    left: seq<Packet>      // history: all packets ever popped at the far end
  )

  const EMPTY := Pipe([], 0, [], 0, [], None, [], [], [])

  ghost predicate Enqueue(p: Pipe, q: Pipe, packet: Packet) {
    q == p.(outbox := p.outbox + [packet], entered := p.entered + [packet])
  }

  function SentAs(p: Pipe): Packet
    requires p.outbox != [] && (p.outbox[0].id == -1 ==> p.autoId < TWO_31)
  {
    Numbered(p.outbox[0], p.autoId)
  }

  /** Sending ints and lengths that overflow an int has no meaning, so no such step. */
  ghost predicate CanSend(p: Pipe) {
    && p.outbox != []
    && (p.outbox[0].id == -1 ==> p.autoId < TWO_31 - 1)
    && Sendable(SentAs(p))
  }

  ghost predicate Send(p: Pipe, q: Pipe) {
    && CanSend(p)
    && q == p.(outbox := p.outbox[1..],
               autoId := if p.outbox[0].id == NO_ID then p.autoId + 1 else p.autoId,
               stream := p.stream + FrameOf(SentAs(p)))
  }

  /**
   * epoll reports the socket while it has unread octets, and receiveMessage reads the next n.
   * The connection is up, so reading ends in one of two ways: at least one octet was read and
   * there are no more for now, or recv failed.
   */
  ghost predicate Receive(p: Pipe, q: Pipe, n: nat, end: RecvEnd) {
    && p.hand.None? && p.got + n <= |p.stream|
    && (end.Failed? || (end.WouldBlock? && n > 0))
    && var (buffer, taken) := ReceiveStep(p.buffer, Call(p.stream[p.got..p.got + n], end));
      q == p.(got := p.got + n, buffer := buffer,
              hand := if Returned(taken).id == NO_ID then None else Some(Returned(taken)))
  }

  ghost predicate Deliver(p: Pipe, q: Pipe) {
    && p.hand.Some?
    && q == p.(hand := None, inbox := p.inbox + [p.hand.value])
  }

  ghost predicate Dequeue(p: Pipe, q: Pipe, packet: Packet) {
    && p.inbox != [] && packet == p.inbox[0]
    && q == p.(inbox := p.inbox[1..], left := p.left + [packet])
  }

  function AfterSend(p: Pipe): (q: Pipe)
    requires CanSend(p)
    ensures Send(p, q)
  {
    p.(outbox := p.outbox[1..],
       autoId := if p.outbox[0].id == NO_ID then p.autoId + 1 else p.autoId,
       stream := p.stream + FrameOf(SentAs(p)))
  }

  function AfterReceive(p: Pipe, n: nat): (q: Pipe)
    requires p.hand.None? && 0 < n <= |p.stream| - p.got
    ensures Receive(p, q, n, WouldBlock)
  {
    var (buffer, taken) := ReceiveStep(p.buffer, Call(p.stream[p.got..p.got + n], WouldBlock));
    p.(got := p.got + n, buffer := buffer,
       hand := if Returned(taken).id == NO_ID then None else Some(Returned(taken)))
  }

  // ---------- what every step keeps ----------

  function InHand(h: Option<Packet>): seq<Packet> {
    match h case None => [] case Some(p) => [p]
  }

  /** The packets sent so far, oldest first. */
  function Sent(p: Pipe): seq<Packet>
    requires |p.outbox| <= |p.entered|
  {
    p.entered[..|p.entered| - |p.outbox|]
  }

  /** Everything that has come out of the far end's buffer. */
  function Arrived(p: Pipe): seq<Packet> {
    p.left + p.inbox + InHand(p.hand)
  }

  /** The packets the octet stream carries. */
  function Carried(p: Pipe): seq<Packet>
    requires |p.outbox| <= |p.entered| && AutoAfter(0, Sent(p)) < TWO_31
  {
    Encodable(Assigned(0, Sent(p)))
  }

  ghost predicate SenderInv(p: Pipe) {
    && |p.outbox| <= |p.entered|
    && p.entered == Sent(p) + p.outbox
    && p.autoId == AutoAfter(0, Sent(p)) < TWO_31
    && AllSendable(Carried(p))
    && p.stream == Frames(Bodies(Carried(p)))
  }

  /** The packets out of the buffer are the first ones carried, and their frames are used up. */
  ghost predicate Tracks(arrived: seq<Packet>, normal: seq<Packet>, bodies: seq<bytes>, buffer: bytes, got: bytes) {
    && |arrived| <= |normal| == |bodies|
    && arrived == normal[..|arrived|]
    && Frames(bodies[..|arrived|]) + buffer == got
  }

  ghost predicate ReceiverInv(p: Pipe, carried: seq<Packet>) {
    && p.got <= |p.stream|
    && Tracks(Arrived(p), NormaliseAll(carried), Bodies(carried), p.buffer, p.stream[..p.got])
  }

  ghost predicate PipeInv(p: Pipe) {
    SenderInv(p) && ReceiverInv(p, Carried(p))
  }

  lemma EmptyInv()
    ensures PipeInv(EMPTY)
  {
  }

  lemma EnqueueKeeps(p: Pipe, q: Pipe, packet: Packet)
    requires PipeInv(p) && Enqueue(p, q, packet)
    ensures PipeInv(q) && Sent(q) == Sent(p) && Arrived(q) == Arrived(p)
  {
    hide AllSendable, Frames, Bodies, Encodable, Assigned, AutoAfter, NormaliseAll;
    assert Sent(q) == Sent(p);
  }

  lemma DeliverKeeps(p: Pipe, q: Pipe)
    requires PipeInv(p) && Deliver(p, q)
    ensures PipeInv(q) && Sent(q) == Sent(p) && Arrived(q) == Arrived(p)
  {
    hide AllSendable, Frames, Bodies, Encodable, Assigned, AutoAfter, NormaliseAll, ReceiverInv;
    assert Arrived(q) == Arrived(p);
    ReceiverUnaffected(p, q, Carried(p), Carried(p));
  }

  lemma DequeueKeeps(p: Pipe, q: Pipe, packet: Packet)
    requires PipeInv(p) && Dequeue(p, q, packet)
    ensures PipeInv(q) && Sent(q) == Sent(p) && Arrived(q) == Arrived(p)
  {
    hide AllSendable, Frames, Bodies, Encodable, Assigned, AutoAfter, NormaliseAll, ReceiverInv;
    assert Arrived(q) == Arrived(p);
    ReceiverUnaffected(p, q, Carried(p), Carried(p));
  }

  lemma SendKeeps(p: Pipe, q: Pipe)
    requires PipeInv(p) && Send(p, q)
    ensures PipeInv(q) && Sent(q) == Sent(p) + [p.outbox[0]] && Arrived(q) == Arrived(p)
  {
    hide Sendable, Frames, Bodies, FrameOf, MissesComponent, ReceiverInv, AllSendable;
    SentGrows(p, q);
    hide AutoAfter, Assigned, Encodable;
    var before := Assigned(0, Sent(p));
    EncodableSnoc(before, SentAs(p));
    SendExtendsStream(p, q, before, SentAs(p));
    ReceiverUnaffected(p, q, Carried(p), Carried(q));
  }

  lemma SentGrows(p: Pipe, q: Pipe)
    requires SenderInv(p) && Send(p, q)
    ensures |q.outbox| <= |q.entered| && Sent(q) == Sent(p) + [p.outbox[0]] && q.entered == Sent(q) + q.outbox
    ensures q.autoId == AutoAfter(0, Sent(q)) < TWO_31
    ensures Assigned(0, Sent(q)) == Assigned(0, Sent(p)) + [SentAs(p)]
  {
    hide Sendable, Frames, Bodies, FrameOf, MissesComponent, AllSendable, Encodable, AutoAfter, Assigned;
    assert Sent(q) == Sent(p) + [p.outbox[0]];
    AutoAfterSnoc(0, Sent(p), p.outbox[0]);
    AssignedSnoc(0, Sent(p), p.outbox[0]);
  }

  lemma SendExtendsStream(p: Pipe, q: Pipe, before: seq<Packet>, sent: Packet)
    requires p.stream == Frames(Bodies(Encodable(before))) && AllSendable(Encodable(before))
    requires q.stream == p.stream + FrameOf(sent) && Sendable(sent)
    ensures q.stream == Frames(Bodies(Encodable(before + [sent])))
    ensures AllSendable(Encodable(before + [sent]))
  {
    hide Sendable, Frames, Bodies, Encodable, FrameOf, MissesComponent;
    EncodableSnoc(before, sent);
    StreamSnoc(before, sent);
    StreamIs(before);
    StreamIs(before + [sent]);
  }

  lemma StreamIs(ps: seq<Packet>)
    ensures Stream(ps) == Frames(Bodies(Encodable(ps)))
  {
    hide Frames, Bodies, Encodable;
  }

  /** More octets and packets behind what was there change nothing for the receiver. */
  lemma ReceiverUnaffected(p: Pipe, q: Pipe, carried: seq<Packet>, more: seq<Packet>)
    requires ReceiverInv(p, carried) && carried <= more && p.stream <= q.stream
    requires q.got == p.got && q.buffer == p.buffer && Arrived(q) == Arrived(p)
    ensures ReceiverInv(q, more)
  {
    hide Arrived, Frames;
    assert q.stream[..q.got] == p.stream[..p.got];
    assert NormaliseAll(more)[..|Arrived(p)|] == NormaliseAll(carried)[..|Arrived(p)|];
    assert Bodies(more)[..|Arrived(p)|] == Bodies(carried)[..|Arrived(p)|];
  }

  /** The frame taken is the next one the stream carries. */
  lemma NextFrame(bodies: seq<bytes>, taken: nat, filled: bytes, tail: bytes)
    requires FitHeader(bodies) && taken <= |bodies|
    requires Frames(bodies[..taken]) + (filled + tail) == Frames(bodies)
    requires TakeFrame(filled).Some?
    ensures taken < |bodies| && TakeFrame(filled).value.0 == bodies[taken]
  {
    assert FitHeader(bodies[..taken]);
    hide *;
    var first, behind := bodies[..taken], filled + tail;
    GreedyOfFrames(bodies);
    GreedyAfterFrames(first, behind);
    TakeFrameExtends(filled, tail);
    GreedyStartsWith(behind);
    FirstBehind(bodies, taken, Greedy(behind).bodies);
  }

  lemma FirstBehind(bodies: seq<bytes>, taken: nat, more: seq<bytes>)
    requires taken <= |bodies| && bodies == bodies[..taken] + more && more != []
    ensures taken < |bodies| && bodies[taken] == more[0]
  {
  }

  lemma ReceiveKeeps(p: Pipe, q: Pipe, n: nat, end: RecvEnd)
    requires PipeInv(p) && Receive(p, q, n, end)
    ensures PipeInv(q) && Sent(q) == Sent(p)
  {
    hide Sendable, Frames, Bodies, Encodable, Assigned, AutoAfter, TakeFrame, NormaliseAll, Returned;
    var carried, call := Carried(p), Call(p.stream[p.got..p.got + n], end);
    assert p.stream[..p.got + n] == p.stream[..p.got] + call.received;
    ReceiverStep(p, q, carried, call);
  }

  lemma ReceiverStep(p: Pipe, q: Pipe, carried: seq<Packet>, call: Call)
    requires ReceiverInv(p, carried) && p.hand.None?
    requires AllSendable(carried) && p.stream == Frames(Bodies(carried))
    requires forall i :: 0 <= i < |carried| ==> !MissesComponent(carried[i].payload)
    requires p.got <= q.got <= |p.stream| && q.stream == p.stream
    requires p.stream[..q.got] == p.stream[..p.got] + call.received
    requires var (buffer, taken) := ReceiveStep(p.buffer, call);
      && q == p.(got := q.got, buffer := buffer, hand := q.hand)
      && q.hand == if Returned(taken).id == -1 then None else Some(Returned(taken))
    ensures ReceiverInv(q, carried)
  {
    hide AllSendable, Frames, TakeFrame, Returned, MissesComponent, Bodies, NormaliseAll, Tracks, Arrived;
    var normal, bodies, filled := NormaliseAll(carried), Bodies(carried), p.buffer + call.received;
    var got := p.stream[..q.got];
    Filled(Arrived(p), normal, bodies, p.buffer, p.stream[..p.got], call.received);
    if ReachesParse(call.end) && TakeFrame(filled).Some? {
      assert p.stream == got + p.stream[q.got..];
      BodiesFitHeader(carried);
      OneMoreFrame(Arrived(p), normal, bodies, filled, got, p.stream[q.got..]);
      FramesAreDelivered(carried, |Arrived(p)|);
      OneMoreArrived(p, q, normal[|Arrived(p)|]);
    } else {
      NothingReturned();
      assert Arrived(q) == Arrived(p) by { SameArrived(p, q); }
    }
  }

  lemma SameArrived(p: Pipe, q: Pipe)
    requires q.hand == p.hand && q.left == p.left && q.inbox == p.inbox
    ensures Arrived(q) == Arrived(p)
  {
  }

  lemma OneMoreArrived(p: Pipe, q: Pipe, packet: Packet)
    requires p.hand.None? && q.hand == Some(packet) && q.left == p.left && q.inbox == p.inbox
    ensures Arrived(q) == Arrived(p) + [packet]
  {
  }

  lemma FramesAreDelivered(carried: seq<Packet>, e: nat)
    requires AllSendable(carried) && e < |carried| && !MissesComponent(carried[e].payload)
    ensures Returned(Some(Bodies(carried)[e])) == NormaliseAll(carried)[e]
    ensures NormaliseAll(carried)[e].id != -1
  {
    hide Sendable, MissesComponent, TreeOf, TreeDer, Returned, NormalisePacket;
    assert Sendable(carried[e]);
    FrameIsDelivered(carried[e]);
  }

  lemma Filled(arrived: seq<Packet>, normal: seq<Packet>, bodies: seq<bytes>, buffer: bytes, got: bytes, more: bytes)
    requires Tracks(arrived, normal, bodies, buffer, got)
    ensures Tracks(arrived, normal, bodies, buffer + more, got + more)
  {
    hide Frames;
    Associative(Frames(bodies[..|arrived|]), buffer, more);
  }

  /** A complete frame in the buffer is that of the next packet carried. */
  lemma OneMoreFrame(arrived: seq<Packet>, normal: seq<Packet>, bodies: seq<bytes>, filled: bytes, got: bytes, tail: bytes)
    requires Tracks(arrived, normal, bodies, filled, got)
    requires FitHeader(bodies) && got + tail == Frames(bodies)
    requires TakeFrame(filled).Some?
    ensures |arrived| < |bodies| && TakeFrame(filled).value.0 == bodies[|arrived|]
    ensures Tracks(arrived + [normal[|arrived|]], normal, bodies, TakeFrame(filled).value.1, got)
  {
    hide Frames, TakeFrame, FitHeader;
    var e := |arrived|;
    Associative(Frames(bodies[..e]), filled, tail);
    NextFrame(bodies, e, filled, tail);
    FrameMoves(bodies, e, filled);
    assert normal[..e + 1] == normal[..e] + [normal[e]];
  }

  lemma FrameMoves(bodies: seq<bytes>, e: nat, filled: bytes)
    requires e < |bodies| && TakeFrame(filled).Some? && TakeFrame(filled).value.0 == bodies[e]
    ensures Frames(bodies[..e + 1]) + TakeFrame(filled).value.1 == Frames(bodies[..e]) + filled
  {
    TakeFrameIs(filled);
    hide Frames, Frame, TakeFrame;
    var (body, rest) := TakeFrame(filled).value;
    FramesSnoc(bodies[..e], body);
    assert bodies[..e + 1] == bodies[..e] + [body];
    Associative(Frames(bodies[..e]), Frame(body), rest);
  }
}
