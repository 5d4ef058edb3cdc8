/**
 * A client, a network and the echo server, as interleaved steps of all their threads up to
 * the disconnect. `up` carries requests, `down` responses; `app` is the packet the server's
 * loop has popped from the request queue and not yet pushed to the response queue.
 */
module EchoSession {
  import opened Wrappers
  import opened Integers
  import opened PacketTypes
  import opened PacketCodec
  import opened Sessions
  import opened Growth
  import opened Outgoing
  import opened Der
  import opened Pipes

  datatype State = State(up: Pipe, app: Option<Packet>, down: Pipe)

  datatype Step =
    | ClientPush(request: Packet)
    | ClientSend
    | ServerReceive(n: nat, end: RecvEnd)
    | ServerQueue
    | ServerPop(request: Packet)
    | ServerPush
    | ServerSend
    | ClientReceive(n: nat, end: RecvEnd)
    | ClientQueue
    | ClientPop(response: Packet)

  ghost predicate Init(s: State) {
    s == State(EMPTY, None, EMPTY)
  }

  ghost predicate Next(s: State, t: State, step: Step) {
    match step
    case ClientPush(request) => t.app == s.app && t.down == s.down && Enqueue(s.up, t.up, request)
    case ClientSend => t.app == s.app && t.down == s.down && Send(s.up, t.up)
    case ServerReceive(n, end) => t.app == s.app && t.down == s.down && Receive(s.up, t.up, n, end)
    case ServerQueue => t.app == s.app && t.down == s.down && Deliver(s.up, t.up)
    case ServerPop(request) =>
      s.app.None? && t.app == Some(request) && t.down == s.down && Dequeue(s.up, t.up, request)
    case ServerPush =>
      s.app.Some? && t.app.None? && t.up == s.up && Enqueue(s.down, t.down, s.app.value)
    case ServerSend => t.app == s.app && t.up == s.up && Send(s.down, t.down)
    case ClientReceive(n, end) => t.app == s.app && t.up == s.up && Receive(s.down, t.down, n, end)
    case ClientQueue => t.app == s.app && t.up == s.up && Deliver(s.down, t.down)
    case ClientPop(response) => t.app == s.app && t.up == s.up && Dequeue(s.down, t.down, response)
  }

  ghost predicate Run(states: seq<State>, steps: seq<Step>) {
    && |states| == |steps| + 1
    && Init(states[0])
    && forall i, j :: 0 <= i < |steps| && j == i + 1 ==> Next(states[i], states[j], steps[i])
  }

  /** A packet as it looks after a hop. */
  ghost predicate Settled(p: Packet) {
    p.id != -1 && NormalisePacket(p) == p && BuffersPresent(p.payload) && !MissesComponent(p.payload)
  }

  ghost predicate AllSettled(ps: seq<Packet>) {
    forall i :: 0 <= i < |ps| ==> Settled(ps[i])
  }

  ghost predicate SessionInv(s: State) {
    && PipeInv(s.up)
    && PipeInv(s.down)
    && s.up.left == s.down.entered + InHand(s.app)
  }

  // ---------- every step keeps the invariant ----------

  lemma StepKeeps(s: State, t: State, step: Step)
    requires SessionInv(s) && Next(s, t, step)
    ensures SessionInv(t)
  {
    hide PipeInv, Send, Receive;
    match step
    case ClientPush(request) => EnqueueKeeps(s.up, t.up, request);
    case ClientSend => SendKeeps(s.up, t.up); SendKeepsHistory(s.up, t.up);
    case ServerReceive(n, end) => ReceiveKeeps(s.up, t.up, n, end); ReceiveKeepsHistory(s.up, t.up, n, end);
    case ServerQueue => DeliverKeeps(s.up, t.up);
    case ServerPop(request) => DequeueKeeps(s.up, t.up, request);
    case ServerPush => EnqueueKeeps(s.down, t.down, s.app.value);
    case ServerSend => SendKeeps(s.down, t.down); SendKeepsHistory(s.down, t.down);
    case ClientReceive(n, end) => ReceiveKeeps(s.down, t.down, n, end); ReceiveKeepsHistory(s.down, t.down, n, end);
    case ClientQueue => DeliverKeeps(s.down, t.down);
    case ClientPop(response) => DequeueKeeps(s.down, t.down, response);
  }

  lemma SendKeepsHistory(p: Pipe, q: Pipe)
    requires Send(p, q)
    ensures q.left == p.left && q.entered == p.entered
  {
  }

  lemma ReceiveKeepsHistory(p: Pipe, q: Pipe, n: nat, end: RecvEnd)
    requires Receive(p, q, n, end)
    ensures q.left == p.left && q.entered == p.entered
  {
  }

  lemma {:induction false} RunKeeps(states: seq<State>, steps: seq<Step>, i: nat)
    requires Run(states, steps) && i < |states|
    ensures SessionInv(states[i])
  {
    hide Next, PipeInv;
    if i == 0 {
      EmptyInv();
    } else {
      RunKeeps(states, steps, i - 1);
      StepKeeps(states[i - 1], states[i], steps[i - 1]);
    }
  }

  // ---------- what the invariant says ----------

  lemma CarriedThenSettled(carried: seq<Packet>, k: nat)
    requires AllSendable(carried) && k <= |carried|
    requires forall i :: 0 <= i < |carried| ==> !MissesComponent(carried[i].payload)
    ensures AllSettled(NormaliseAll(carried)[..k])
  {
    hide Sendable, NormalisePacket, MissesComponent;
    forall i | 0 <= i < k ensures Settled(NormaliseAll(carried)[i]) {
      assert Sendable(carried[i]);
      SendableAfterHop(carried[i]);
    }
  }

  lemma {:induction false} SettledStays(ps: seq<Packet>)
    requires AllSettled(ps)
    ensures AutoAfter(0, ps) == 0 && Assigned(0, ps) == ps
    ensures Encodable(ps) == ps && NormaliseAll(ps) == ps
  {
    hide Sendable, NormalisePacket, MissesComponent;
    assert forall i :: 0 <= i < |ps| ==> Settled(ps[i]);
    NoneAssigned(0, ps);
    if |ps| > 0 {
      SettledStays(ps[..|ps| - 1]);
      assert ps == ps[..|ps| - 1] + [ps[|ps| - 1]];
    }
  }

  /** All a server handles has settled on the way up, so the way down changes nothing. */
  lemma DownstreamUnchanged(s: State)
    requires SessionInv(s)
    ensures AllSettled(s.down.entered)
    ensures Sent(s.down) <= s.down.entered
    ensures Carried(s.down) == Sent(s.down) == NormaliseAll(Carried(s.down))
    ensures s.down.autoId == 0
  {
    hide Sendable, NormaliseAll, AutoAfter, Assigned, Encodable, AllSettled;
    var carried := Carried(s.up);
    CarriedThenSettled(carried, |Arrived(s.up)|);
    assert s.down.entered <= Arrived(s.up);
    SettledPrefix(NormaliseAll(carried)[..|Arrived(s.up)|], s.down.entered);
    SettledPrefix(s.down.entered, Sent(s.down));
    SettledStays(Sent(s.down));
  }

  lemma SettledPrefix(ps: seq<Packet>, qs: seq<Packet>)
    requires AllSettled(ps) && qs <= ps
    ensures AllSettled(qs)
  {
    hide Settled;
  }

  /**
   * End-to-end echo safety. At every moment of every interleaving, what the client has popped
   * is a prefix of what it has sent, in order, each packet under its assigned id and
   * normalised once; requests that encode refused are skipped. The server numbers nothing.
   */
  lemma EchoSafety(states: seq<State>, steps: seq<Step>, i: nat)
    requires Run(states, steps) && i < |states|
    ensures var s := states[i];
      && |s.up.outbox| <= |s.up.entered| && AutoAfter(0, Sent(s.up)) < TWO_31
      && s.down.left <= NormaliseAll(Encodable(Assigned(0, Sent(s.up))))
      && s.down.autoId == 0
  {
    hide Next, NormaliseAll, AutoAfter, Assigned, Encodable, AllSettled, Sendable;
    RunKeeps(states, steps, i);
    var s := states[i];
    DownstreamUnchanged(s);
    assert s.down.left <= Arrived(s.down) <= Sent(s.down) <= s.down.entered;
    assert s.down.entered <= s.up.left <= Arrived(s.up) <= NormaliseAll(Carried(s.up));
  }

  /** Packet by packet, when every request has its components. */
  lemma EchoedPacket(states: seq<State>, steps: seq<Step>, i: nat, k: nat)
    requires Run(states, steps) && i < |states| && k < |states[i].down.left|
    requires forall j :: 0 <= j < |states[i].up.entered| ==> !MissesComponent(states[i].up.entered[j].payload)
    ensures var pushed, response := states[i].up.entered, states[i].down.left[k];
      && k < |pushed| && AutoAfter(0, pushed[..k]) < TWO_31
      && response.payload == Normalise(pushed[k].payload)
      && response.id == if pushed[k].id == -1 then AutoAfter(0, pushed[..k]) else NormInt(pushed[k].id)
  {
    hide Next, Normalise, Run, MissesComponent;
    EchoSafety(states, steps, i);
    var s := states[i];
    var sent := Sent(s.up);
    var withIds := Assigned(0, sent);
    forall j | 0 <= j < |withIds| ensures !MissesComponent(withIds[j].payload) {
      AssignedAt(0, sent, j);
      assert sent[j] == s.up.entered[j];
    }
    NothingRefused(withIds);
    AssignedAt(0, sent, k);
    assert sent[..k] == s.up.entered[..k] && sent[k] == s.up.entered[k];
    IntegerPathDomain(withIds[k].id);
  }

  lemma {:induction false} NothingRefused(ps: seq<Packet>)
    requires forall i :: 0 <= i < |ps| ==> !MissesComponent(ps[i].payload)
    ensures Encodable(ps) == ps
  {
    if |ps| > 0 {
      NothingRefused(ps[..|ps| - 1]);
      assert ps == ps[..|ps| - 1] + [ps[|ps| - 1]];
    }
  }

  /**
   * What the server has queued next is a request as it arrived. It goes out under the id it
   * came with and is never refused, exactly when the request left room for its lost signs.
   */
  lemma ServerCanAlwaysSend(states: seq<State>, steps: seq<Step>, i: nat)
    requires Run(states, steps) && i < |states| && states[i].down.outbox != []
    ensures var s, p := states[i], states[i].down.outbox[0];
      && |s.up.outbox| <= |s.up.entered| && AutoAfter(0, Sent(s.up)) < TWO_31
      && |s.down.outbox| <= |s.down.entered| && |Sent(s.down)| < |Carried(s.up)|
      && p.id != -1 && !MissesComponent(p.payload) && SentAs(s.down) == p
      && var request := Carried(s.up)[|Sent(s.down)|];
        && p == NormalisePacket(request)
        && (CanSend(s.down) <==> TreeSize(TreeOf(request)) + LostSigns(request) < MAX_SIZE)
  {
    hide Next, NormaliseAll, AutoAfter, Assigned, Encodable, BuffersPresent, Fits, MissesComponent, TreeSize, TreeOf, LostSigns;
    RunKeeps(states, steps, i);
    var s := states[i];
    DownstreamUnchanged(s);
    var k := |Sent(s.down)|;
    assert s.down.outbox[0] == s.down.entered[k];
    assert Settled(s.down.outbox[0]);
    assert s.down.entered <= s.up.left <= Arrived(s.up) <= NormaliseAll(Carried(s.up));
    FitsAfterHop(Carried(s.up)[k]);
  }

  ghost predicate Enabled(s: State, step: Step) {
    exists t :: Next(s, t, step)
  }

  /** No sender waits for another thread, nor does the client's application. */
  lemma SendersAreFree(s: State, request: Packet)
    ensures Enabled(s, ClientPush(request))
    ensures CanSend(s.up) ==> Enabled(s, ClientSend)
    ensures CanSend(s.down) ==> Enabled(s, ServerSend)
  {
    hide CanSend, Send, Receive, AfterSend, AfterReceive;
    var up := s.up;
    assert Next(s, s.(up := up.(outbox := up.outbox + [request], entered := up.entered + [request])), ClientPush(request));
    if CanSend(up) {
      assert Next(s, s.(up := AfterSend(up)), ClientSend);
    }
    if CanSend(s.down) {
      assert Next(s, s.(down := AfterSend(s.down)), ServerSend);
    }
  }

  /** A receiver reads as soon as there are octets, and queues what it has in hand. */
  lemma ServerReceiverIsFree(s: State, n: nat)
    ensures s.up.hand.None? && 0 < n <= |s.up.stream| - s.up.got ==> Enabled(s, ServerReceive(n, WouldBlock))
    ensures s.up.hand.Some? ==> Enabled(s, ServerQueue)
  {
    hide CanSend, Send, Receive, AfterSend, AfterReceive;
    var up := s.up;
    if up.hand.Some? {
      assert Next(s, s.(up := up.(hand := None, inbox := up.inbox + [up.hand.value])), ServerQueue);
    } else if 0 < n <= |up.stream| - up.got {
      assert Next(s, s.(up := AfterReceive(up, n)), ServerReceive(n, WouldBlock));
    }
  }

  lemma ClientReceiverIsFree(s: State, n: nat)
    ensures s.down.hand.None? && 0 < n <= |s.down.stream| - s.down.got ==> Enabled(s, ClientReceive(n, WouldBlock))
    ensures s.down.hand.Some? ==> Enabled(s, ClientQueue)
  {
    hide CanSend, Send, Receive, AfterSend, AfterReceive;
    var down := s.down;
    if down.hand.Some? {
      assert Next(s, s.(down := down.(hand := None, inbox := down.inbox + [down.hand.value])), ClientQueue);
    } else if 0 < n <= |down.stream| - down.got {
      assert Next(s, s.(down := AfterReceive(down, n)), ClientReceive(n, WouldBlock));
    }
  }

  /** And whatever is queued can be popped, or pushed on. */
  lemma PoppersAreFree(s: State)
    ensures s.up.inbox != [] && s.app.None? ==> Enabled(s, ServerPop(s.up.inbox[0]))
    ensures s.app.Some? ==> Enabled(s, ServerPush)
    ensures s.down.inbox != [] ==> Enabled(s, ClientPop(s.down.inbox[0]))
  {
    hide CanSend, Send, Receive, AfterSend, AfterReceive;
    var up, down := s.up, s.down;
    if up.inbox != [] && s.app.None? {
      assert Next(s, State(up.(inbox := up.inbox[1..], left := up.left + [up.inbox[0]]), Some(up.inbox[0]), down),
                  ServerPop(up.inbox[0]));
    }
    if s.app.Some? {
      assert Next(s, State(up, None, down.(outbox := down.outbox + [s.app.value], entered := down.entered + [s.app.value])),
                  ServerPush);
    }
    if down.inbox != [] {
      assert Next(s, s.(down := down.(inbox := down.inbox[1..], left := down.left + [down.inbox[0]])),
                  ClientPop(down.inbox[0]));
    }
  }
}
