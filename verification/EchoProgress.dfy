/**
 * When a session can still complete: all requests sent and all their echoes popped, without a
 * further request. epoll wakes a receiver for unread octets only, and each wake-up takes at
 * most one frame, so a frame that came in with another one may have to wait for new octets.
 */
module EchoProgress {
  import opened Wrappers
  import opened Bytes
  import opened Integers
  import opened Der
  import opened PacketTypes
  import opened PacketCodec
  import opened Framing
  import opened Sessions
  import opened Growth
  import opened Outgoing
  import opened Pipes
  import opened EchoSession

  ghost predicate Path(states: seq<State>, steps: seq<Step>) {
    && |states| == |steps| + 1
    && (forall i :: 0 <= i < |steps| ==> !steps[i].ClientPush?)
    && forall i, j :: 0 <= i < |steps| && j == i + 1 ==> Next(states[i], states[j], steps[i])
  }

  /** What has been pushed as the upward stream carries it once all is sent. */
  function Requests(entered: seq<Packet>): seq<Packet>
    requires AutoAfter(0, entered) < TWO_31
  {
    Encodable(Assigned(0, entered))
  }

  ghost predicate Complete(s: State) {
    && s.up.outbox == []
    && AutoAfter(0, s.up.entered) < TWO_31
    && s.down.left == NormaliseAll(Requests(s.up.entered))
  }

  ghost predicate Completes(s: State) {
    exists states, steps :: Path(states, steps) && states[0] == s && Complete(states[|states| - 1])
  }

  // ---------- the condition ----------

  /** Where a session stands, in numbers. */
  datatype Tally = Tally(
    entered: seq<Packet>, // all requests pushed
    unsent: int,          // how many of them are still queued
    taken: int, read: int,        // frames taken and octets read by the server
    back: int,                    // responses sent
    returned: int, readBack: int) // frames taken and octets read by the client

  function TallyOf(s: State): Tally {
    Tally(s.up.entered, |s.up.outbox|, |Arrived(s.up)|, s.up.got,
          |s.down.entered| - |s.down.outbox|, |Arrived(s.down)|, s.down.got)
  }

  /** A request whose echo can be sent: it leaves room for its lost signs. */
  predicate LeavesRoom(request: Packet) {
    TreeSize(TreeOf(request)) + LostSigns(request) < MAX_SIZE
  }

  ghost predicate PendingFit(entered: seq<Packet>, unsent: int)
    requires AutoAfter(0, entered) < TWO_31
  {
    0 <= unsent <= |entered| && forall i :: |entered| - unsent <= i < |entered| ==> Sendable(Assigned(0, entered)[i])
  }

  ghost predicate EchoesFit(requests: seq<Packet>, back: int) {
    0 <= back && forall i :: back <= i < |requests| ==> LeavesRoom(requests[i])
  }

  /** Frames still to be taken are no more than octets still to be read. */
  ghost predicate OctetsSuffice(all: seq<Packet>, taken: int, read: int) {
    |all| - taken <= |Frames(Bodies(all))| - read
  }

  /** What is pending can be sent, here and back, and there are octets to wake both receivers. */
  ghost predicate Fine(x: Tally) {
    && AutoAfter(0, x.entered) < TWO_31
    && PendingFit(x.entered, x.unsent)
    && EchoesFit(Requests(x.entered), x.back)
    && OctetsSuffice(Requests(x.entered), x.taken, x.read)
    && OctetsSuffice(NormaliseAll(Requests(x.entered)), x.returned, x.readBack)
  }

  // ---------- where a session stands ----------

  lemma {:induction false} EncodableConcat(a: seq<Packet>, b: seq<Packet>)
    ensures Encodable(a) <= Encodable(a + b)
  {
    if |b| == 0 {
      assert a + b == a;
    } else {
      EncodableConcat(a, b[..|b| - 1]);
      assert (a + b)[..|a + b| - 1] == a + b[..|b| - 1];
    }
  }

  lemma {:induction false} AssignedPrefix(ps: seq<Packet>, k: nat)
    requires k <= |ps| && AutoAfter(0, ps) < TWO_31
    ensures AutoAfter(0, ps[..k]) < TWO_31 && Assigned(0, ps[..k]) == Assigned(0, ps)[..k]
  {
    AutoAfterMonotone(0, ps, k);
    if k < |ps| {
      AssignedPrefix(ps[..|ps| - 1], k);
      assert ps[..|ps| - 1][..k] == ps[..k];
    } else {
      assert ps[..k] == ps;
    }
  }

  lemma CarriedIsPrefix(p: Pipe)
    requires SenderInv(p) && AutoAfter(0, p.entered) < TWO_31
    ensures Carried(p) <= Encodable(Assigned(0, p.entered))
    ensures p.outbox == [] ==> Carried(p) == Encodable(Assigned(0, p.entered))
  {
    hide Encodable, Assigned, AutoAfter, AllSendable, Frames, Bodies;
    var k := |p.entered| - |p.outbox|;
    AssignedPrefix(p.entered, k);
    var all := Assigned(0, p.entered);
    EncodableConcat(all[..k], all[k..]);
    assert all[..k] + all[k..] == all;
    assert p.outbox == [] ==> Sent(p) == p.entered;
  }

  /** Both pipes in terms of the requests. */
  lemma Standing(s: State)
    requires SessionInv(s) && AutoAfter(0, s.up.entered) < TWO_31
    ensures var all := Requests(s.up.entered);
      && SenderInv(s.up) && SenderInv(s.down)
      && Carried(s.up) <= all && (s.up.outbox == [] ==> Carried(s.up) == all)
      && Carried(s.down) == Sent(s.down) <= s.down.entered <= NormaliseAll(all)
      && Arrived(s.up) <= NormaliseAll(Carried(s.up)) && Arrived(s.down) <= Sent(s.down)
      && s.up.left == s.down.entered + InHand(s.app)
  {
    hide NormaliseAll, Encodable, Assigned, AutoAfter, AllSendable, Frames, Bodies;
    CarriedIsPrefix(s.up);
    DownstreamUnchanged(s);
    NormalisePrefix(Carried(s.up), Requests(s.up.entered));
    assert s.down.entered <= s.up.left <= Arrived(s.up) <= NormaliseAll(Carried(s.up));
  }

  lemma NormalisePrefix(a: seq<Packet>, b: seq<Packet>)
    requires a <= b
    ensures NormaliseAll(a) <= NormaliseAll(b)
  {
    hide NormalisePacket;
  }

  lemma FramesPrefix(a: seq<Packet>, b: seq<Packet>)
    requires a <= b
    ensures |Frames(Bodies(a))| <= |Frames(Bodies(b))|
  {
    hide Frames, TreeOf, TreeDer;
    assert Bodies(b) == Bodies(a) + Bodies(b[|a|..]);
    FramesConcat(Bodies(a), Bodies(b[|a|..]));
  }

  // ---------- the condition is necessary ----------

  lemma CompleteIsFine(s: State)
    requires SessionInv(s) && Complete(s)
    ensures Fine(TallyOf(s))
  {
    hide *;
    CompleteMeans(s);
    Standing(s);
    AllIsBack(s, Requests(s.up.entered));
    AllBackIsFine(s);
  }

  lemma CompleteMeans(s: State)
    requires Complete(s)
    ensures AutoAfter(0, s.up.entered) < TWO_31 && s.up.outbox == []
    ensures s.down.left == NormaliseAll(Requests(s.up.entered))
  {
  }

  lemma AllIsBack(s: State, all: seq<Packet>)
    requires SessionInv(s) && s.down.left == NormaliseAll(all) && Carried(s.up) == all
    requires Arrived(s.down) <= Sent(s.down) <= s.down.entered <= NormaliseAll(all)
    requires Arrived(s.up) <= NormaliseAll(all) && s.up.left == s.down.entered + InHand(s.app)
    ensures |Arrived(s.up)| == |Arrived(s.down)| == |all| && Sent(s.down) == s.down.entered == NormaliseAll(all)
  {
    hide NormaliseAll, Carried, PipeInv;
    assert s.down.left <= Arrived(s.down);
    assert |s.up.left| <= |Arrived(s.up)|;
  }

  lemma AllBackIsFine(s: State)
    requires SessionInv(s) && AutoAfter(0, s.up.entered) < TWO_31 && s.up.outbox == []
    requires var all := Requests(s.up.entered);
      && |Arrived(s.up)| == |Arrived(s.down)| == |all| && Carried(s.up) == all
      && Carried(s.down) == Sent(s.down) == s.down.entered == NormaliseAll(all)
    ensures Fine(TallyOf(s))
  {
    hide AutoAfter, Requests, NormaliseAll, Frames, Bodies, Assigned, Encodable, Arrived, LeavesRoom, AllSendable;
  }

  /** The ways in which one step changes the tally. */
  ghost predicate Moves(x: Tally, y: Tally)
    requires AutoAfter(0, x.entered) < TWO_31
  {
    || y == x
    || (0 < x.unsent <= |x.entered| && y == x.(unsent := x.unsent - 1)
        && Sendable(Assigned(0, x.entered)[|x.entered| - x.unsent]))
    || (0 <= x.back < |Requests(x.entered)| && y == x.(back := x.back + 1)
        && LeavesRoom(Requests(x.entered)[x.back]))
    || (y == x.(taken := y.taken, read := y.read) && y.taken - x.taken <= y.read - x.read)
    || (y == x.(returned := y.returned, readBack := y.readBack) && y.returned - x.returned <= y.readBack - x.readBack)
  }

  lemma OneMorePending(entered: seq<Packet>, unsent: int)
    requires AutoAfter(0, entered) < TWO_31 && 0 < unsent <= |entered|
    requires PendingFit(entered, unsent - 1) && Sendable(Assigned(0, entered)[|entered| - unsent])
    ensures PendingFit(entered, unsent)
  {
    hide AutoAfter, Assigned, Sendable;
  }

  lemma OneMoreEcho(requests: seq<Packet>, back: int)
    requires 0 <= back < |requests| && EchoesFit(requests, back + 1) && LeavesRoom(requests[back])
    ensures EchoesFit(requests, back)
  {
    hide LeavesRoom;
  }

  lemma SufficesBefore(all: seq<Packet>, taken: int, read: int, taken': int, read': int)
    requires taken' - taken <= read' - read
    ensures OctetsSuffice(all, taken', read') ==> OctetsSuffice(all, taken, read)
  {
    hide Frames, Bodies;
  }

  lemma FineBefore(x: Tally, y: Tally)
    requires AutoAfter(0, x.entered) < TWO_31 && Moves(x, y) && Fine(y)
    ensures Fine(x)
  {
    hide AutoAfter, Assigned, Requests, Sendable, LeavesRoom, NormaliseAll, PendingFit, EchoesFit, OctetsSuffice;
    SufficesBefore(Requests(x.entered), x.taken, x.read, y.taken, y.read);
    SufficesBefore(NormaliseAll(Requests(x.entered)), x.returned, x.readBack, y.returned, y.readBack);
    if y.unsent < x.unsent {
      OneMorePending(x.entered, x.unsent);
    } else if x.back < y.back {
      OneMoreEcho(Requests(x.entered), x.back);
    }
  }

  /** No call takes more frames than octets. */
  lemma ReceiveUsesOctets(p: Pipe, q: Pipe, n: nat, end: RecvEnd)
    requires Receive(p, q, n, end)
    ensures |Arrived(q)| - |Arrived(p)| <= n && q.got == p.got + n
    ensures q.entered == p.entered && q.outbox == p.outbox && q.stream == p.stream
  {
    hide TakeFrame, Returned;
    if end.Failed? {
      NothingReturned();
    }
  }

  lemma SendNeedsFit(p: Pipe, q: Pipe)
    requires SenderInv(p) && Send(p, q) && AutoAfter(0, p.entered) < TWO_31
    ensures q.entered == p.entered && q.got == p.got && Arrived(q) == Arrived(p)
    ensures |q.outbox| + 1 == |p.outbox| <= |p.entered|
    ensures SentAs(p) == Assigned(0, p.entered)[|p.entered| - |p.outbox|] && Sendable(SentAs(p))
  {
    hide Encodable, Assigned, AutoAfter, AllSendable, Frames, Bodies, Sendable, FrameOf, Numbered;
    var k := |p.entered| - |p.outbox|;
    AssignedAt(0, p.entered, k);
    assert p.entered[k] == p.outbox[0] && p.entered[..k] == Sent(p);
  }

  /** What the server sends back next is the oldest request not sent back, which must leave room. */
  lemma SendBackNeedsFit(s: State, q: Pipe)
    requires SessionInv(s) && AutoAfter(0, s.up.entered) < TWO_31 && Send(s.down, q)
    ensures var k := |s.down.entered| - |s.down.outbox|;
      0 <= k < |Requests(s.up.entered)| && LeavesRoom(Requests(s.up.entered)[k])
    ensures q.entered == s.down.entered && q.got == s.down.got && Arrived(q) == Arrived(s.down)
    ensures |q.outbox| + 1 == |s.down.outbox|
  {
    hide AutoAfter, FrameOf, SessionInv, Requests, LeavesRoom, Sendable, Numbered;
    var k := |s.down.entered| - |s.down.outbox|;
    NextBack(s);
    FitsLeavesRoom(Requests(s.up.entered)[k]);
  }

  lemma NextBack(s: State)
    requires SessionInv(s) && AutoAfter(0, s.up.entered) < TWO_31 && s.down.outbox != []
    ensures var k := |s.down.entered| - |s.down.outbox|;
      && 0 <= k < |Requests(s.up.entered)|
      && s.down.outbox[0] == NormalisePacket(Requests(s.up.entered)[k])
      && s.down.outbox[0].id != -1 && SentAs(s.down) == s.down.outbox[0]
      && BuffersPresent(s.down.outbox[0].payload)
  {
    hide Requests, AutoAfter, SessionInv, NormalisePacket, MissesComponent, BuffersPresent, Arrived;
    Standing(s);
    AllSettledHere(s);
    var k := |s.down.entered| - |s.down.outbox|;
    assert s.down.outbox[0] == s.down.entered[k];
    assert Settled(s.down.outbox[0]);
  }

  lemma FitsLeavesRoom(request: Packet)
    ensures LeavesRoom(request) <==> Fits(NormalisePacket(request))
    ensures Sendable(NormalisePacket(request)) ==> LeavesRoom(request)
  {
    hide TreeSize, TreeOf, LostSigns, NormalisePacket;
    FitsAfterHop(request);
  }

  lemma AllSettledHere(s: State)
    requires SessionInv(s)
    ensures AllSettled(s.down.entered) && s.down.entered == Sent(s.down) + s.down.outbox
  {
    DownstreamUnchanged(s);
  }

  lemma StepMoves(s: State, t: State, step: Step)
    requires SessionInv(s) && Next(s, t, step) && !step.ClientPush? && AutoAfter(0, s.up.entered) < TWO_31
    ensures t.up.entered == s.up.entered && Moves(TallyOf(s), TallyOf(t))
  {
    hide Requests, Assigned, AutoAfter, Sendable, LeavesRoom, Send, Receive, PipeInv, Arrived;
    match step
    case ClientSend => SendNeedsFit(s.up, t.up) by { UpSender(s); }
    case ServerReceive(n, end) => ReceiveUsesOctets(s.up, t.up, n, end);
    case ServerQueue => DeliverKeeps(s.up, t.up);
    case ServerPop(request) => DequeueKeeps(s.up, t.up, request);
    case ServerPush => EnqueueKeeps(s.down, t.down, s.app.value);
    case ServerSend => SendBackNeedsFit(s, t.down);
    case ClientReceive(n, end) => ReceiveUsesOctets(s.down, t.down, n, end);
    case ClientQueue => DeliverKeeps(s.down, t.down);
    case ClientPop(response) => DequeueKeeps(s.down, t.down, response);
  }

  lemma UpSender(s: State)
    requires SessionInv(s)
    ensures SenderInv(s.up)
  {
    hide SenderInv;
  }

  lemma FineIds(s: State)
    requires Fine(TallyOf(s))
    ensures AutoAfter(0, s.up.entered) < TWO_31
  {
    hide AutoAfter;
  }

  lemma TallyKeepsRequests(s: State)
    ensures TallyOf(s).entered == s.up.entered
  {
  }

  lemma SameRequests(s: State, t: State, step: Step)
    requires Next(s, t, step) && !step.ClientPush?
    ensures t.up.entered == s.up.entered
  {
    hide Sendable, ReceiveStep;
  }

  lemma {:induction false} NeededBefore(states: seq<State>, steps: seq<Step>)
    requires Path(states, steps) && SessionInv(states[0]) && Complete(states[|states| - 1])
    ensures Fine(TallyOf(states[0]))
    decreases |steps|
  {
    hide Next, SessionInv, Complete, Fine, TallyOf, Moves;
    var s := states[0];
    if |steps| == 0 {
      CompleteIsFine(s);
    } else {
      var t := states[1];
      assert Next(s, t, steps[0]);
      StepKeeps(s, t, steps[0]);
      NeededBefore(states[1..], steps[1..]);
      FineIds(t);
      SameRequests(s, t, steps[0]);
      StepMoves(s, t, steps[0]);
      FineBefore(TallyOf(s), TallyOf(t)) by { TallyKeepsRequests(s); }
    }
  }

  // ---------- and sufficient ----------

  lemma {:induction false} FramesAreLong(bodies: seq<bytes>)
    ensures |Frames(bodies)| >= 4 * |bodies|
  {
    if |bodies| > 0 {
      FramesAreLong(bodies[1..]);
    }
  }

  /** An incomplete frame, and all behind it: there are octets enough left to be read. */
  lemma OctetsForAll(bodies: seq<bytes>, k: nat, buffer: bytes, unread: bytes)
    requires FitHeader(bodies) && k <= |bodies|
    requires Frames(bodies[..k]) + buffer + unread == Frames(bodies)
    requires TakeFrame(buffer).None?
    ensures |bodies| - k <= |unread|
  {
    if k < |bodies| {
      assert |bodies[k]| < TWO_32;
      hide *;
      SplitAt(bodies, k);
      FramesAreLong(bodies[k + 1..]);
      var first, behind := Frames(bodies[..k]), Frames(bodies[k + 1..]);
      Associative(first, buffer, unread);
      BehindIs(first, buffer + unread, Frame(bodies[k]) + behind);
      FrameIncomplete(bodies[k], behind, buffer, unread);
    }
  }

  lemma SplitAt(bodies: seq<bytes>, k: nat)
    requires k < |bodies|
    ensures Frames(bodies) == Frames(bodies[..k]) + (Frame(bodies[k]) + Frames(bodies[k + 1..]))
  {
    hide Frame;
    assert bodies == bodies[..k] + bodies[k..];
    FramesConcat(bodies[..k], bodies[k..]);
    assert bodies[k..][1..] == bodies[k + 1..];
  }

  lemma BehindIs(a: bytes, b: bytes, c: bytes)
    requires a + b == a + c
    ensures b == c
  {
    assert (a + b)[|a|..] == b && (a + c)[|a|..] == c;
  }

  lemma FrameIncomplete(body: bytes, behind: bytes, buffer: bytes, unread: bytes)
    requires |body| < TWO_32 && Frame(body) + behind == buffer + unread && TakeFrame(buffer).None?
    ensures |buffer| < 4 + |body| && |unread| > |behind|
  {
    hide TakeFrame, Frame;
    var n := |Frame(body)|;
    assert n == 4 + |body| by { FrameLength(body); }
    if |buffer| >= n {
      var rest := buffer[n..];
      assert buffer == (buffer + unread)[..|buffer|];
      assert buffer[..n] == (Frame(body) + behind)[..n] == Frame(body);
      assert buffer == Frame(body) + rest;
      TakeFrameOf(body, rest);
    }
  }

  lemma FrameLength(body: bytes)
    ensures |Frame(body)| == 4 + |body|
  {
  }

  /** A frame that is complete is handed on, so without one nothing complete is left. */
  lemma TakenIsHanded(p: Pipe, q: Pipe, n: nat)
    requires PipeInv(p) && Receive(p, q, n, WouldBlock) && q.hand.None?
    ensures TakeFrame(q.buffer).None? && Arrived(q) == Arrived(p)
  {
    hide Sendable, Frames, Bodies, Encodable, Assigned, AutoAfter, TakeFrame, NormaliseAll, Returned, AllSendable,
      MissesComponent, Tracks;
    var carried, call := Carried(p), Call(p.stream[p.got..p.got + n], WouldBlock);
    var normal, bodies, filled := NormaliseAll(carried), Bodies(carried), p.buffer + call.received;
    var got, tail := p.stream[..p.got + n], p.stream[p.got + n..];
    assert got == p.stream[..p.got] + call.received && p.stream == got + tail;
    if TakeFrame(filled).Some? {
      Filled(Arrived(p), normal, bodies, p.buffer, p.stream[..p.got], call.received);
      BodiesFitHeader(carried);
      OneMoreFrame(Arrived(p), normal, bodies, filled, got, tail);
      FramesAreDelivered(carried, |Arrived(p)|);
    }
  }

  lemma OctetsLeft(q: Pipe)
    requires PipeInv(q) && TakeFrame(q.buffer).None?
    ensures OctetsSuffice(Carried(q), |Arrived(q)|, q.got)
  {
    hide Frames, Encodable, Assigned, AutoAfter, TakeFrame, NormaliseAll, AllSendable, FitHeader;
    var carried := Carried(q);
    BodiesFitHeader(carried);
    assert q.stream == q.stream[..q.got] + q.stream[q.got..];
    OctetsForAll(Bodies(carried), |Arrived(q)|, q.buffer, q.stream[q.got..]);
  }

  lemma OneHanded(p: Pipe, q: Pipe)
    requires Receive(p, q, 1, WouldBlock) && q.hand.Some?
    ensures |Arrived(q)| == |Arrived(p)| + 1
  {
    hide TakeFrame, Returned;
  }

  /** Read octet by octet, what sufficed goes on sufficing. */
  lemma StillSuffices(p: Pipe, q: Pipe)
    requires PipeInv(p) && Receive(p, q, 1, WouldBlock) && OctetsSuffice(Carried(p), |Arrived(p)|, p.got)
    ensures PipeInv(q) && Carried(q) == Carried(p) && OctetsSuffice(Carried(p), |Arrived(q)|, q.got)
  {
    hide Frames, Bodies, Encodable, Assigned, AutoAfter, TakeFrame, AllSendable, ReceiveStep, ReceiverInv;
    ReceiveKeeps(p, q, 1, WouldBlock);
    ReceiveUsesOctets(p, q, 1, WouldBlock);
    if q.hand.None? {
      TakenIsHanded(p, q, 1);
      OctetsLeft(q);
    } else {
      OneHanded(p, q);
    }
  }

  /** Everything read, delivered and sent on: then all has arrived. */
  lemma QuietIsComplete(s: State)
    requires SessionInv(s) && Fine(TallyOf(s))
    requires s.up.outbox == [] && s.up.got >= |s.up.stream| && s.up.hand.None? && s.up.inbox == [] && s.app.None?
    requires s.down.outbox == [] && s.down.got >= |s.down.stream| && s.down.hand.None? && s.down.inbox == []
    ensures Complete(s)
  {
    hide AutoAfter, Frames, Bodies, NormaliseAll, Requests, PendingFit, EchoesFit, Encodable, Assigned, ReceiverInv;
    Standing(s);
    var all := NormaliseAll(Requests(s.up.entered));
    assert s.up.left == Arrived(s.up) && |Arrived(s.up)| >= |all|;
    assert s.up.left == all;
    assert s.down.entered == all && Sent(s.down) == all;
    assert s.down.left == Arrived(s.down) && |Arrived(s.down)| >= |all|;
  }

  lemma FineAfter(x: Tally, y: Tally)
    requires Fine(x) && Moves(x, y)
    requires y.taken == x.taken && y.read == x.read && y.returned == x.returned && y.readBack == x.readBack
    ensures Fine(y)
  {
    hide AutoAfter, Assigned, Requests, Sendable, LeavesRoom, NormaliseAll, OctetsSuffice;
  }

  lemma SendTakesOne(p: Pipe)
    requires CanSend(p)
    ensures |AfterSend(p).outbox| == |p.outbox| - 1
  {
    hide Sendable, FrameOf;
  }

  lemma ClientCanSend(s: State)
    requires SessionInv(s) && Fine(TallyOf(s)) && s.up.outbox != []
    ensures CanSend(s.up)
  {
    FineIds(s);
    UpSender(s);
    PendingCanSend(s.up);
  }

  lemma PendingCanSend(p: Pipe)
    requires SenderInv(p) && AutoAfter(0, p.entered) < TWO_31 && p.outbox != []
    requires PendingFit(p.entered, |p.outbox|)
    ensures CanSend(p)
  {
    hide Encodable, Assigned, AutoAfter, AllSendable, Frames, Bodies, Sendable, Numbered;
    var k := |p.entered| - |p.outbox|;
    AssignedAt(0, p.entered, k);
    assert p.entered[k] == p.outbox[0] && p.entered[..k] == Sent(p);
    AutoAfterMonotone(0, p.entered, k + 1);
    AutoAfterSnoc(0, p.entered[..k], p.entered[k]);
    assert p.entered[..k + 1] == p.entered[..k] + [p.entered[k]];
  }

  lemma ServerCanSend(s: State)
    requires SessionInv(s) && Fine(TallyOf(s)) && s.down.outbox != []
    ensures CanSend(s.down)
  {
    hide AutoAfter, SessionInv, Requests, LeavesRoom, PendingFit, OctetsSuffice, Fits, BuffersPresent, NormalisePacket;
    NextBack(s);
    FitsLeavesRoom(Requests(s.up.entered)[|s.down.entered| - |s.down.outbox|]);
  }

  /** How much each thread has left to do, the first ones first. */
  function Inside(p: Pipe): nat {
    2 * |InHand(p.hand)| + |p.inbox|
  }

  function Unread(p: Pipe): int {
    |p.stream| - p.got
  }

  ghost predicate Nearer(t: State, s: State) {
    || |t.up.outbox| < |s.up.outbox|
    || (|t.up.outbox| == |s.up.outbox| &&
        (|| 0 <= Unread(t.up) < Unread(s.up)
         || (Unread(t.up) == Unread(s.up) &&
             (|| Waiting(t) < Waiting(s)
              || (Waiting(t) == Waiting(s) &&
                  (|| |t.down.outbox| < |s.down.outbox|
                   || (|t.down.outbox| == |s.down.outbox| &&
                       (|| 0 <= Unread(t.down) < Unread(s.down)
                        || (Unread(t.down) == Unread(s.down) && Inside(t.down) < Inside(s.down))))))))))
  }

  function Waiting(s: State): nat {
    2 * Inside(s.up) + |InHand(s.app)|
  }

  ghost predicate Quiet(s: State) {
    && s.up.outbox == [] && Unread(s.up) <= 0 && Inside(s.up) == 0 && s.app.None?
    && s.down.outbox == [] && Unread(s.down) <= 0 && Inside(s.down) == 0
  }

  /** A step of a thread that has no reading to do. */
  lemma StepWithin(s: State) returns (t: State, step: Step)
    requires SessionInv(s) && Fine(TallyOf(s))
    requires s.up.outbox != [] || Inside(s.up) > 0 || s.app.Some? || s.down.outbox != [] || Inside(s.down) > 0
    ensures Next(s, t, step) && !step.ClientPush? && Nearer(t, s)
    ensures t.up.got == s.up.got && t.down.got == s.down.got
    ensures |Arrived(t.up)| == |Arrived(s.up)| && |Arrived(t.down)| == |Arrived(s.down)|
  {
    hide SessionInv, Fine, TallyOf, CanSend, Send;
    if s.up.outbox != [] {
      ClientCanSend(s);
      var q := AfterSend(s.up);
      SendTakesOne(s.up);
      SendKeepsTheRest(s.up, q);
      t, step := s.(up := q), ClientSend;
    } else if s.up.hand.Some? {
      t, step := s.(up := s.up.(hand := None, inbox := s.up.inbox + [s.up.hand.value])), ServerQueue;
    } else if s.app.Some? {
      t, step := State(s.up, None, s.down.(outbox := s.down.outbox + [s.app.value],
                                           entered := s.down.entered + [s.app.value])), ServerPush;
    } else if s.up.inbox != [] {
      var request := s.up.inbox[0];
      t, step := State(s.up.(inbox := s.up.inbox[1..], left := s.up.left + [request]), Some(request), s.down),
        ServerPop(request);
    } else if s.down.outbox != [] {
      ServerCanSend(s);
      var q := AfterSend(s.down);
      SendTakesOne(s.down);
      SendKeepsTheRest(s.down, q);
      t, step := s.(down := q), ServerSend;
    } else if s.down.hand.Some? {
      t, step := s.(down := s.down.(hand := None, inbox := s.down.inbox + [s.down.hand.value])), ClientQueue;
    } else {
      var response := s.down.inbox[0];
      t, step := s.(down := s.down.(inbox := s.down.inbox[1..], left := s.down.left + [response])), ClientPop(response);
    }
  }

  lemma SendKeepsTheRest(p: Pipe, q: Pipe)
    requires Send(p, q)
    ensures q.got == p.got && q.hand == p.hand && q.inbox == p.inbox && q.left == p.left && q.entered == p.entered
    ensures Arrived(q) == Arrived(p)
  {
    hide CanSend, FrameOf;
  }

  /** A step that keeps the condition and leaves less to do. */
  lemma StepForward(s: State) returns (t: State, step: Step)
    requires SessionInv(s) && Fine(TallyOf(s)) && !Quiet(s)
    ensures Next(s, t, step) && !step.ClientPush? && Nearer(t, s)
    ensures SessionInv(t) && Fine(TallyOf(t))
  {
    hide SessionInv, Fine, Next, Moves, Nearer, Arrived, OctetsSuffice, Receive;
    FineIds(s);
    if s.up.outbox != [] || Inside(s.up) > 0 || s.app.Some? || s.down.outbox != [] || Inside(s.down) > 0 {
      t, step := StepWithin(s);
      StepMoves(s, t, step);
      FineAfter(TallyOf(s), TallyOf(t));
    } else if Unread(s.up) > 0 {
      t, step := ServerReads(s);
    } else {
      t, step := ClientReads(s);
    }
    StepKeeps(s, t, step);
  }

  lemma ServerReads(s: State) returns (t: State, step: Step)
    requires SessionInv(s) && Fine(TallyOf(s))
    requires s.up.outbox == [] && Inside(s.up) == 0 && Unread(s.up) > 0
    ensures Next(s, t, step) && !step.ClientPush? && Nearer(t, s) && Fine(TallyOf(t))
  {
    hide SessionInv, Receive, AutoAfter, Requests, NormaliseAll, Arrived, PendingFit, EchoesFit, OctetsSuffice, PipeInv, Carried;
    UpCarriesAll(s);
    var q := ReadAnOctet(s.up);
    t, step := s.(up := q), ServerReceive(1, WouldBlock);
  }

  lemma ReadAnOctet(p: Pipe) returns (q: Pipe)
    requires PipeInv(p) && Inside(p) == 0 && Unread(p) > 0 && OctetsSuffice(Carried(p), |Arrived(p)|, p.got)
    ensures Receive(p, q, 1, WouldBlock) && OctetsSuffice(Carried(p), |Arrived(q)|, q.got)
    ensures q.entered == p.entered && q.outbox == p.outbox && q.stream == p.stream && q.got == p.got + 1
  {
    hide Receive, PipeInv, Carried, Arrived, OctetsSuffice;
    q := AfterReceive(p, 1);
    ReceiveUsesOctets(p, q, 1, WouldBlock);
    StillSuffices(p, q);
  }

  lemma UpCarriesAll(s: State)
    requires SessionInv(s) && AutoAfter(0, s.up.entered) < TWO_31 && s.up.outbox == []
    ensures PipeInv(s.up) && Carried(s.up) == Requests(s.up.entered)
  {
    hide AutoAfter, NormaliseAll, Requests, PipeInv;
    Standing(s);
  }

  lemma ClientReads(s: State) returns (t: State, step: Step)
    requires SessionInv(s) && Fine(TallyOf(s)) && s.up.outbox == [] && Unread(s.up) <= 0 && Inside(s.up) == 0
    requires s.app.None? && s.down.outbox == [] && Inside(s.down) == 0 && Unread(s.down) > 0
    ensures Next(s, t, step) && !step.ClientPush? && Nearer(t, s) && Fine(TallyOf(t))
  {
    hide SessionInv, Receive, AutoAfter, Requests, NormaliseAll, Arrived, PendingFit, EchoesFit, OctetsSuffice, PipeInv, Carried;
    DownCarriesAll(s);
    var q := ReadAnOctet(s.down);
    t, step := s.(down := q), ClientReceive(1, WouldBlock);
  }

  /** With nothing left on the way up, the downward stream carries all echoes. */
  lemma DownCarriesAll(s: State)
    requires SessionInv(s) && Fine(TallyOf(s)) && s.up.outbox == [] && Unread(s.up) <= 0 && Inside(s.up) == 0
    requires s.app.None? && s.down.outbox == []
    ensures PipeInv(s.down) && Carried(s.down) == NormaliseAll(Requests(s.up.entered))
  {
    hide AutoAfter, Frames, Bodies, NormaliseAll, Requests, PendingFit, EchoesFit, Encodable, Assigned, ReceiverInv;
    Standing(s);
    var all := NormaliseAll(Requests(s.up.entered));
    assert s.up.left == Arrived(s.up) && |Arrived(s.up)| >= |all|;
    assert s.up.left == all;
    assert s.down.entered == all && Sent(s.down) == all;
  }

  lemma {:induction false} Drain(s: State) returns (states: seq<State>, steps: seq<Step>)
    requires SessionInv(s) && Fine(TallyOf(s))
    ensures Path(states, steps) && states[0] == s && Complete(states[|states| - 1])
    decreases |s.up.outbox|, Unread(s.up), Waiting(s), |s.down.outbox|, Unread(s.down), Inside(s.down)
  {
    hide SessionInv, Fine, Next, Complete, Quiet;
    if Quiet(s) {
      assert Complete(s) by { QuietMeans(s); QuietIsComplete(s); }
      states, steps := [s], [];
    } else {
      var t, step := StepForward(s);
      var rest, more := Drain(t);
      states, steps := [s] + rest, [step] + more;
    }
  }

  lemma QuietMeans(s: State)
    requires Quiet(s)
    ensures s.up.outbox == [] && s.up.got >= |s.up.stream| && s.up.hand.None? && s.up.inbox == [] && s.app.None?
    ensures s.down.outbox == [] && s.down.got >= |s.down.stream| && s.down.hand.None? && s.down.inbox == []
  {
  }

  // ---------- theorems ----------

  /**
   * From any moment of any run the session can still complete, without another request,
   * exactly when what is pending can be sent, here and back, and neither receiver has more
   * frames to take than octets to read.
   */
  lemma CompletesExactlyWhen(states: seq<State>, steps: seq<Step>, i: nat)
    requires Run(states, steps) && i < |states|
    ensures Completes(states[i]) <==> Fine(TallyOf(states[i]))
  {
    hide SessionInv, Fine, Next, Complete;
    var s := states[i];
    RunKeeps(states, steps, i);
    if Completes(s) {
      var path, taken :| Path(path, taken) && path[0] == s && Complete(path[|path| - 1]);
      NeededBefore(path, taken);
    }
    if Fine(TallyOf(s)) {
      var path, taken := Drain(s);
    }
  }

  lemma Extend(before: seq<State>, taken: seq<Step>, t: State, step: Step)
    returns (states: seq<State>, steps: seq<Step>)
    requires before != [] && Run(before, taken) && Next(before[|before| - 1], t, step)
    ensures Run(states, steps) && states != [] && states[|states| - 1] == t
  {
    hide Next;
    states, steps := before + [t], taken + [step];
  }

  lemma {:induction false} Follow(before: seq<State>, taken: seq<Step>, path: seq<State>, more: seq<Step>)
    returns (states: seq<State>, steps: seq<Step>)
    requires before != [] && Run(before, taken) && Path(path, more) && path[0] == before[|before| - 1]
    ensures Run(states, steps) && states != [] && states[|states| - 1] == path[|path| - 1]
    decreases |more|
  {
    hide Next, Run;
    states, steps := before, taken;
    if |more| > 0 {
      assert Next(path[0], path[1], more[0]);
      states, steps := Extend(before, taken, path[1], more[0]);
      states, steps := Follow(states, steps, path[1..], more[1..]);
    }
  }

  /** A session in which these requests have been pushed and nothing else has happened. */
  function Pushed(requests: seq<Packet>): State {
    State(EMPTY.(outbox := requests, entered := requests), None, EMPTY)
  }

  lemma {:induction false} PushAll(requests: seq<Packet>) returns (states: seq<State>, steps: seq<Step>)
    ensures Run(states, steps) && states != [] && states[|states| - 1] == Pushed(requests)
  {
    if |requests| == 0 {
      states, steps := [Pushed([])], [];
    } else {
      var init, last := requests[..|requests| - 1], requests[|requests| - 1];
      states, steps := PushAll(init);
      assert requests == init + [last];
      states, steps := Extend(states, steps, Pushed(requests), ClientPush(last));
    }
  }

  /** Any requests that can be sent and leave room can be pushed at once, and all be echoed. */
  lemma AnyRequestsCanBeEchoed(requests: seq<Packet>) returns (states: seq<State>, steps: seq<Step>)
    requires AutoAfter(0, requests) < TWO_31 && AllSendable(Assigned(0, requests))
    requires forall i :: 0 <= i < |Requests(requests)| ==> LeavesRoom(Requests(requests)[i])
    ensures Run(states, steps)
    ensures var last := states[|states| - 1];
      last.up.entered == requests && last.down.left == NormaliseAll(Requests(requests))
  {
    hide *;
    var start, pushes := PushAll(requests);
    PushedIsFine(requests);
    RunLength(start, pushes);
    RunKeeps(start, pushes, |start| - 1);
    var path, more := Drain(Pushed(requests));
    PathLength(path, more);
    states, steps := Follow(start, pushes, path, more);
    PathKeepsRequests(path, more);
    PushedRequests(requests);
    CompleteMeans(path[|path| - 1]);
  }

  lemma PushedRequests(requests: seq<Packet>)
    ensures Pushed(requests).up.entered == requests
  {
  }

  lemma PathLength(states: seq<State>, steps: seq<Step>)
    requires Path(states, steps)
    ensures |states| == |steps| + 1
  {
  }

  lemma RunLength(states: seq<State>, steps: seq<Step>)
    requires Run(states, steps)
    ensures |states| == |steps| + 1
  {
  }

  lemma {:induction false} PathKeepsRequests(states: seq<State>, steps: seq<Step>)
    requires Path(states, steps)
    ensures states[|states| - 1].up.entered == states[0].up.entered
    decreases |steps|
  {
    hide Next;
    if |steps| > 0 {
      assert Next(states[0], states[1], steps[0]);
      SameRequests(states[0], states[1], steps[0]);
      PathKeepsRequests(states[1..], steps[1..]);
    }
  }

  lemma PushedIsFine(requests: seq<Packet>)
    requires AutoAfter(0, requests) < TWO_31 && AllSendable(Assigned(0, requests))
    requires forall i :: 0 <= i < |Requests(requests)| ==> LeavesRoom(Requests(requests)[i])
    ensures Fine(TallyOf(Pushed(requests)))
  {
    hide AutoAfter, Requests, Sendable, LeavesRoom, NormaliseAll, Frames, Bodies, Assigned;
    var all := Requests(requests);
    FramesAreLong(Bodies(all));
    FramesAreLong(Bodies(NormaliseAll(all)));
    assert |NormaliseAll(all)| == |all|;
    assert Arrived(EMPTY) == [];
  }

  lemma SendFirst(p: Pipe, first: Packet, rest: seq<Packet>) returns (q: Pipe)
    requires p.outbox == [first] + rest && first.id != -1 && Sendable(first) && !MissesComponent(first.payload)
    ensures Send(p, q) && q == p.(outbox := rest, stream := q.stream) && |q.stream| > |p.stream|
  {
    hide Sendable, TreeOf, TreeDer, MissesComponent;
    assert p.outbox[1..] == rest;
    q := AfterSend(p);
    assert |FrameOf(first)| >= 4;
  }

  lemma ReadAll(p: Pipe) returns (q: Pipe)
    requires p.hand.None? && p.got < |p.stream|
    ensures Receive(p, q, |p.stream| - p.got, WouldBlock)
    ensures q.entered == p.entered && q.outbox == p.outbox && q.stream == p.stream && q.got == |p.stream|
    ensures |Arrived(q)| <= |Arrived(p)| + 1
  {
    hide TakeFrame, Returned;
    q := AfterReceive(p, |p.stream| - p.got);
  }

  /** Two requests carried, one taken at most, and no octet left to read. */
  lemma NothingLeftToRead(s: State, a: Packet, b: Packet)
    requires SessionInv(s) && s.up.entered == [a, b] && a.id != -1 && b.id != -1
    requires !MissesComponent(a.payload) && !MissesComponent(b.payload)
    requires s.up.outbox == [] && s.up.got == |s.up.stream| && |Arrived(s.up)| <= 1
    ensures !Fine(TallyOf(s))
  {
    hide MissesComponent, Frames, Bodies, AllSendable, PendingFit, EchoesFit, SessionInv, Encodable, AutoAfter, Assigned, Arrived;
    NoneAssigned(0, [a, b]);
    NothingRefused([a, b]);
    Standing(s);
  }

  /**
   * Two requests read at once: the server takes the first frame only and is not woken for the
   * second, so there is a moment from which the second echo cannot come without a third request.
   */
  lemma TwoAtOnceStall(a: Packet, b: Packet) returns (states: seq<State>, steps: seq<Step>)
    requires a.id != -1 && b.id != -1 && Sendable(a) && Sendable(b)
    requires !MissesComponent(a.payload) && !MissesComponent(b.payload)
    ensures Run(states, steps)
    ensures var last := states[|states| - 1];
      last.up.entered == [a, b] && last.up.outbox == [] && !Completes(last)
  {
    hide Run, Sendable, MissesComponent, Send, Receive, SessionInv, Completes, Fine, TallyOf, Arrived;
    states, steps := PushAll([a, b]);
    var p0 := Pushed([a, b]).up;
    assert [a, b] == [a] + [b];
    var p1 := SendFirst(p0, a, [b]);
    states, steps := Extend(states, steps, State(p1, None, EMPTY), ClientSend);
    var p2 := SendFirst(p1, b, []);
    states, steps := Extend(states, steps, State(p2, None, EMPTY), ClientSend);
    var p3 := ReadAll(p2);
    states, steps := Extend(states, steps, State(p3, None, EMPTY), ServerReceive(|p2.stream|, WouldBlock));
    NothingArrived(p2);
    RunLength(states, steps);
    RunKeeps(states, steps, |states| - 1);
    NothingLeftToRead(State(p3, None, EMPTY), a, b);
    CompletesExactlyWhen(states, steps, |states| - 1);
  }

  lemma NothingArrived(p: Pipe)
    requires p.left == [] && p.inbox == [] && p.hand.None?
    ensures Arrived(p) == []
  {
  }
}
