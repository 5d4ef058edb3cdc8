/**
 * Peers over a network that loses, delays, reorders and possibly duplicates datagrams. Each
 * peer sends its queued packets one after the other, each until acknowledged or given up,
 * on a socket of its own, so acknowledgements of earlier packets are never read.
 */
module StopAndWait {
  import opened Wrappers
  import opened Bytes
  import opened Integers
  import opened PacketTypes
  import opened PacketCodec
  import opened Outgoing
  import opened Udp

  /** A packet to be sent, and where to. */
  type Message = Addressed<nat>

  datatype Phase = Idle | Sending | Awaiting

  datatype Sender = Sender(
    queue: seq<Message>,     // sendQueue
    autoId: nat,
    phase: Phase,
    budget: nat,             // maxResendCount
    replies: seq<Reply>,     // history: what the waits for the latest message ended with
    submitted: seq<Message>, // history: all messages ever queued
    started: seq<Message>,   // history: those taken up, under their final ids
    copies: seq<nat>,        // history: how often each was sent
    acked: set<nat>          // history: indices of those that ended acknowledged
  )

  /** Message number `index` of peer `src`, on its way; its socket is that pair. */
  datatype Datagram = Datagram(src: nat, index: nat, to: nat, content: bytes)

  datatype Acknowledgement = Acknowledgement(src: nat, index: nat)

  /** A packet as decoded by peer `at`. */
  datatype Entry = Entry(at: nat, src: nat, index: nat, packet: Packet)

  datatype State = State(
    peers: seq<Sender>,
    net: multiset<Datagram>,
    acks: multiset<Acknowledgement>,
    log: seq<Entry>,               // history: all receptions, in order of time
    duplicated: multiset<Datagram> // history: copies the network itself made
  )

  datatype Step =
    | Submit(p: nat, message: Message)
    | Begin(p: nat)
    | Transmit(p: nat)
    | GiveUp(p: nat)
    | Timeout(p: nat)
    | GetAck(p: nat)
    | Receive(d: Datagram)
    | Lose(d: Datagram)
    | LoseAck(a: Acknowledgement)
    | Duplicate(d: Datagram)
    | DuplicateAck(a: Acknowledgement)

  const QUIET := Sender([], 0, Idle, 0, [], [], [], [], {})

  ghost predicate Init(s: State) {
    && (forall p :: 0 <= p < |s.peers| ==> s.peers[p] == QUIET)
    && s.log == []
    && s.net == multiset{} && s.acks == multiset{} && s.duplicated == multiset{}
  }

  function WithId(m: Message, autoId: nat): Message
    requires m.packet.id == -1 ==> autoId < TWO_31
  {
    Addressed(m.peer, Numbered(m.packet, autoId))
  }

  function Current(s: Sender): nat
    requires s.started != []
  {
    |s.started| - 1
  }

  function DatagramOf(p: nat, s: Sender, index: nat): Datagram
    requires index < |s.started|
  {
    Datagram(p, index, s.started[index].peer, FrameOf(s.started[index].packet))
  }

  /** sendSession takes up the oldest message; ids and lengths must stay within an int. */
  ghost predicate Starts(s: Sender, t: Sender, peers: nat) {
    && s.phase.Idle? && s.queue != []
    && (s.queue[0].packet.id == -1 ==> s.autoId < TWO_31 - 1)
    && var m := WithId(s.queue[0], s.autoId);
      && m.peer < peers && Sendable(m.packet) && !MissesComponent(m.packet.payload)
      && t == s.(queue := s.queue[1..], phase := Sending, budget := MAX_SENDS, replies := [],
                 autoId := if s.queue[0].packet.id == NO_ID then s.autoId + 1 else s.autoId,
                 started := s.started + [m], copies := s.copies + [0])
  }

  ghost predicate Decodable(d: Datagram) {
    && |d.content| >= 4 && |d.content| - 4 >= BigEndian(d.content[..4])
    && DecodeSpec(Deframed(d.content)).Success?
  }

  function EntryOf(d: Datagram): Entry
    requires Decodable(d)
  {
    Entry(d.to, d.src, d.index, DecodeSpec(Deframed(d.content)).value)
  }

  ghost predicate Next(s: State, t: State, step: Step) {
    match step
    case Submit(p, m) =>
      && p < |s.peers|
      && t == s.(peers := s.peers[p := s.peers[p].(queue := s.peers[p].queue + [m],
                                                   submitted := s.peers[p].submitted + [m])])
    case Begin(p) =>
      && p < |s.peers| && p < |t.peers|
      && Starts(s.peers[p], t.peers[p], |s.peers|)
      && t == s.(peers := s.peers[p := t.peers[p]])
    case Transmit(p) =>
      && p < |s.peers| && s.peers[p].phase.Sending? && s.peers[p].budget > 0
      && s.peers[p].started != [] && |s.peers[p].copies| == |s.peers[p].started|
      && var i := Current(s.peers[p]);
        t == s.(net := s.net + multiset{DatagramOf(p, s.peers[p], i)},
                peers := s.peers[p := s.peers[p].(phase := Awaiting,
                  copies := s.peers[p].copies[i := s.peers[p].copies[i] + 1])])
    case GiveUp(p) =>
      && p < |s.peers| && s.peers[p].phase.Sending? && s.peers[p].budget == 0
      && t == s.(peers := s.peers[p := s.peers[p].(phase := Idle)])
    case Timeout(p) =>
      && p < |s.peers| && s.peers[p].phase.Awaiting? && s.peers[p].budget > 0
      && t == s.(peers := s.peers[p := s.peers[p].(phase := Sending, budget := s.peers[p].budget - 1,
                                                   replies := s.peers[p].replies + [TimedOut])])
    case GetAck(p) =>
      && p < |s.peers| && s.peers[p].phase.Awaiting? && s.peers[p].started != []
      && var i := Current(s.peers[p]);
        && Acknowledgement(p, i) in s.acks
        && t == s.(acks := s.acks - multiset{Acknowledgement(p, i)},
                   peers := s.peers[p := s.peers[p].(phase := Idle, acked := s.peers[p].acked + {i},
                     replies := s.peers[p].replies + [From(s.peers[p].started[i].peer, ACK)])])
    case Receive(d) =>
      && d in s.net && Decodable(d)
      && t == s.(net := s.net - multiset{d},
                 log := s.log + [EntryOf(d)],
                 acks := s.acks + multiset{Acknowledgement(d.src, d.index)})
    case Lose(d) => d in s.net && t == s.(net := s.net - multiset{d})
    case LoseAck(a) => a in s.acks && t == s.(acks := s.acks - multiset{a})
    case DuplicateAck(a) => a in s.acks && t == s.(acks := s.acks + multiset{a})
    case Duplicate(d) =>
      && d in s.net
      && t == s.(net := s.net + multiset{d}, duplicated := s.duplicated + multiset{d})
  }

  ghost predicate Run(states: seq<State>, steps: seq<Step>) {
    && |states| == |steps| + 1
    && Init(states[0])
    && forall i, j :: 0 <= i < |steps| && j == i + 1 ==> Next(states[i], states[j], steps[i])
  }

  // ---------- senders on their own ----------

  /** Sends so far and sends left make ten, one of them underway while awaiting a reply. */
  ghost predicate BudgetInv(s: Sender) {
    && |s.copies| == |s.started|
    && (forall i :: 0 <= i < |s.copies| ==> s.copies[i] <= MAX_SENDS)
    && (!s.phase.Idle? ==> s.started != [] && Current(s) !in s.acked)
    && (s.phase.Sending? ==> s.copies[Current(s)] + s.budget == MAX_SENDS)
    && (s.phase.Awaiting? ==> s.budget > 0 && s.copies[Current(s)] + s.budget == MAX_SENDS + 1)
    && (forall i :: i in s.acked ==> i < |s.started|)
  }

  ghost predicate AllTimedOut(replies: seq<Reply>) {
    forall i :: 0 <= i < |replies| ==> replies[i] == TimedOut
  }

  /** The waits so far ended like those of a retransmission loop in the same place. */
  ghost predicate RepliesInv(s: Sender) {
    s.started != [] ==>
      && |s.copies| == |s.started|
      && var i, n := Current(s), |s.replies|;
        match s.phase
        case Sending => n == s.copies[i] && AllTimedOut(s.replies)
        case Awaiting => n + 1 == s.copies[i] && AllTimedOut(s.replies)
        case Idle =>
          && n == s.copies[i]
          && if i in s.acked then
               n > 0 && AllTimedOut(s.replies[..n - 1]) && s.replies[n - 1] == From(s.started[i].peer, ACK)
             else n == MAX_SENDS && AllTimedOut(s.replies)
  }

  /** Messages are taken up in the order submitted, with ids assigned in that order. */
  ghost predicate OrderInv(s: Sender) {
    && |s.started| <= |s.submitted|
    && s.queue == s.submitted[|s.started|..]
    && AutoAfter(0, PacketsOf(s.submitted[..|s.started|])) == s.autoId < TWO_31
    && PacketsOf(s.started) == Assigned(0, PacketsOf(s.submitted[..|s.started|]))
    && (forall i :: 0 <= i < |s.started| ==> s.started[i].peer == s.submitted[i].peer)
  }

  ghost predicate MessagesFine(s: Sender, peers: nat) {
    forall i :: 0 <= i < |s.started| ==>
      && s.started[i].peer < peers
      && Sendable(s.started[i].packet) && !MissesComponent(s.started[i].packet.payload)
  }

  ghost predicate SenderInv(s: Sender, peers: nat) {
    BudgetInv(s) && RepliesInv(s) && OrderInv(s) && MessagesFine(s, peers)
  }

  lemma StartKeepsOrder(s: Sender, t: Sender, peers: nat)
    requires OrderInv(s) && Starts(s, t, peers)
    ensures OrderInv(t)
  {
    hide Sendable, MissesComponent, AutoAfter, Assigned, PacketsOf;
    var n, m := |s.started|, s.queue[0];
    var before, sent := PacketsOf(s.submitted[..n]), WithId(m, s.autoId);
    assert m == s.submitted[n] && s.submitted[..n + 1] == s.submitted[..n] + [m];
    PacketsSnoc(s.submitted[..n], m);
    PacketsSnoc(s.started, sent);
    AutoAfterSnoc(0, before, m.packet);
    AssignedSnoc(0, before, m.packet);
    assert t.queue == t.submitted[n + 1..];
  }

  lemma PacketsSnoc(ms: seq<Message>, m: Message)
    ensures PacketsOf(ms + [m]) == PacketsOf(ms) + [m.packet]
  {
  }

  // ---------- the network ----------

  function CountIn(log: seq<Entry>, src: nat, index: nat): nat {
    if |log| == 0 then 0
    else CountIn(log[..|log| - 1], src, index)
         + if log[|log| - 1].src == src && log[|log| - 1].index == index then 1 else 0
  }

  ghost predicate InLog(log: seq<Entry>, src: nat, index: nat) {
    exists k :: 0 <= k < |log| && log[k].src == src && log[k].index == index
  }

  /** The message exists, at this sender and under this number. */
  ghost predicate Exists(s: State, src: nat, index: nat) {
    src < |s.peers| && index < |s.peers[src].started|
  }

  ghost predicate Genuine(s: State, d: Datagram) {
    Exists(s, d.src, d.index) && d == DatagramOf(d.src, s.peers[d.src], d.index)
  }

  ghost predicate GenuineEntry(s: State, e: Entry) {
    && Exists(s, e.src, e.index)
    && e.at == s.peers[e.src].started[e.index].peer
    && e.packet == NormalisePacket(s.peers[e.src].started[e.index].packet)
  }

  /** Wherever a later message of the same peer stands in the log, `index` stands before it. */
  ghost predicate Precedes(log: seq<Entry>, src: nat, index: nat) {
    forall k :: 0 <= k < |log| && log[k].src == src && log[k].index > index ==> InLog(log[..k], src, index)
  }

  ghost predicate SendersInv(s: State) {
    forall p :: 0 <= p < |s.peers| ==> SenderInv(s.peers[p], |s.peers|)
  }

  ghost predicate NetInv(s: State) {
    && (forall d :: d in s.net ==> Genuine(s, d))
    && (forall k :: 0 <= k < |s.log| ==> GenuineEntry(s, s.log[k]))
  }

  ghost predicate AckInv(s: State) {
    && (forall a :: a in s.acks ==> InLog(s.log, a.src, a.index))
    && (forall p, i :: 0 <= p < |s.peers| && i in s.peers[p].acked ==> InLog(s.log, p, i))
  }

  ghost predicate OrderedInv(s: State) {
    forall p, i :: 0 <= p < |s.peers| && i in s.peers[p].acked ==> Precedes(s.log, p, i)
  }

  function CopiesOf(s: State, p: nat, i: nat): nat {
    if p < |s.peers| && i < |s.peers[p].copies| then s.peers[p].copies[i] else 0
  }

  /** Receptions and copies underway never exceed sends and the network's own duplicates. */
  ghost predicate Counted(s: State, p: nat, i: nat)
    requires Exists(s, p, i)
  {
    var d := DatagramOf(p, s.peers[p], i);
    CountIn(s.log, p, i) + s.net[d] <= CopiesOf(s, p, i) + s.duplicated[d]
  }

  ghost predicate CountInv(s: State) {
    forall p, i :: Exists(s, p, i) ==> Counted(s, p, i)
  }

  ghost predicate Inv(s: State) {
    SendersInv(s) && NetInv(s) && AckInv(s) && OrderedInv(s) && CountInv(s)
  }

  // ---------- every step keeps the invariant ----------

  /** Peers stay, and what they have started stays as it is. */
  ghost predicate Grows(s: State, t: State) {
    && |t.peers| == |s.peers|
    && forall p :: 0 <= p < |s.peers| ==> s.peers[p].started <= t.peers[p].started
  }

  /** The peer a step belongs to, if it belongs to one. */
  function Actor(step: Step): Option<nat> {
    match step
    case Submit(p, _) => Some(p)
    case Begin(p) => Some(p)
    case Transmit(p) => Some(p)
    case GiveUp(p) => Some(p)
    case Timeout(p) => Some(p)
    case GetAck(p) => Some(p)
    case _ => None
  }

  lemma OthersStand(s: State, t: State, step: Step)
    requires Next(s, t, step)
    ensures Grows(s, t)
    ensures forall p :: 0 <= p < |s.peers| && Actor(step) != Some(p) ==> t.peers[p] == s.peers[p]
  {
    OnePeerChanges(s, t, step);
    hide Next;
    var actor := Actor(step);
    if actor.None? {
      assert t.peers == s.peers;
    } else {
      assert t.peers == s.peers[actor.value := t.peers[actor.value]];
    }
  }

  lemma OnePeerChanges(s: State, t: State, step: Step)
    requires Next(s, t, step)
    ensures match Actor(step)
      case None => t.peers == s.peers
      case Some(p) =>
        && p < |s.peers| == |t.peers| && t.peers == s.peers[p := t.peers[p]]
        && s.peers[p].started <= t.peers[p].started
  {
    hide Decodable, EntryOf, Sendable, FrameOf, MissesComponent, DatagramOf;
    match step
    case Submit(_, _) =>
    case Begin(_) =>
    case Transmit(_) =>
    case GiveUp(_) =>
    case Timeout(_) =>
    case GetAck(_) =>
    case _ =>
  }

  /** What a step adds to the network comes from the peer that transmits. */
  lemma NetEffects(s: State, t: State, step: Step, d: Datagram)
    requires Next(s, t, step) && d in t.net
    ensures d in s.net || (step.Transmit? && Genuine(s, d))
  {
    hide Decodable, EntryOf, FrameOf, Starts;
    match step
    case Transmit(p) =>
      var i := Current(s.peers[p]);
      assert Genuine(s, DatagramOf(p, s.peers[p], i));
      assert d == DatagramOf(p, s.peers[p], i) || d in s.net;
    case _ =>
  }

  /** Acknowledgements come from receptions, and receptions from the network. */
  lemma ReceptionEffects(s: State, t: State, step: Step)
    requires Next(s, t, step)
    ensures forall a :: a in t.acks ==>
      a in s.acks || (step.Receive? && a == Acknowledgement(step.d.src, step.d.index))
    ensures !step.Receive? ==> t.log == s.log
    ensures step.Receive? ==> Decodable(step.d) && step.d in s.net && t.log == s.log + [EntryOf(step.d)]
  {
    hide Decodable, EntryOf, FrameOf, Starts;
  }

  /** A message becomes acknowledged while it is the latest its peer has started. */
  lemma AckedEffects(s: State, t: State, step: Step, p: nat, i: nat)
    requires Next(s, t, step) && p < |s.peers| && p < |t.peers|
    requires i in t.peers[p].acked && i !in s.peers[p].acked
    ensures i + 1 == |s.peers[p].started| && Acknowledgement(p, i) in s.acks
    ensures t.log == s.log && t.peers[p].started == s.peers[p].started
  {
    hide Decodable, EntryOf, FrameOf, Sendable, MissesComponent;
    match step
    case GetAck(r) => assert r == p;
    case _ =>
  }

  lemma ActorKeepsBudget(s: State, t: State, step: Step, p: nat)
    requires Next(s, t, step) && Actor(step) == Some(p)
    requires p < |s.peers| && |t.peers| == |s.peers| && BudgetInv(s.peers[p])
    ensures BudgetInv(t.peers[p])
  {
    hide Decodable, EntryOf, Sendable, FrameOf, MissesComponent, DatagramOf;
    match step
    case Submit(_, _) =>
    case Begin(_) =>
    case Transmit(_) =>
    case GiveUp(_) =>
    case Timeout(_) =>
    case GetAck(_) =>
    case _ =>
  }

  lemma ActorKeepsReplies(s: State, t: State, step: Step, p: nat)
    requires Next(s, t, step) && Actor(step) == Some(p)
    requires p < |s.peers| && |t.peers| == |s.peers| && BudgetInv(s.peers[p]) && RepliesInv(s.peers[p])
    ensures RepliesInv(t.peers[p])
  {
    hide Decodable, EntryOf, Sendable, FrameOf, MissesComponent, DatagramOf;
    match step
    case Submit(_, _) =>
    case Begin(_) =>
    case Transmit(_) =>
    case GiveUp(_) =>
    case Timeout(_) =>
    case GetAck(_) => assert t.peers[p].replies[..|s.peers[p].replies|] == s.peers[p].replies;
    case _ =>
  }

  lemma SubmitKeepsOrder(s: Sender, t: Sender, m: Message)
    requires OrderInv(s) && t == s.(queue := s.queue + [m], submitted := s.submitted + [m])
    ensures OrderInv(t)
  {
    hide Assigned, AutoAfter, PacketsOf;
    assert t.submitted[..|s.started|] == s.submitted[..|s.started|];
  }

  lemma ActorKeepsOrder(s: State, t: State, step: Step, p: nat)
    requires Next(s, t, step) && Actor(step) == Some(p)
    requires p < |s.peers| && |t.peers| == |s.peers|
    requires OrderInv(s.peers[p]) && MessagesFine(s.peers[p], |s.peers|)
    ensures OrderInv(t.peers[p]) && MessagesFine(t.peers[p], |s.peers|)
  {
    hide Decodable, EntryOf, Sendable, FrameOf, MissesComponent, DatagramOf, Assigned, AutoAfter, PacketsOf;
    match step
    case Submit(_, m) => SubmitKeepsOrder(s.peers[p], t.peers[p], m);
    case Begin(_) => StartKeepsOrder(s.peers[p], t.peers[p], |s.peers|);
    case _ =>
  }

  lemma SendersKept(s: State, t: State, step: Step)
    requires SendersInv(s) && Next(s, t, step)
    ensures SendersInv(t)
  {
    hide Next, BudgetInv, RepliesInv, OrderInv, MessagesFine;
    OthersStand(s, t, step);
    if Actor(step).Some? && Actor(step).value < |s.peers| {
      ActorKeepsBudget(s, t, step, Actor(step).value);
      ActorKeepsReplies(s, t, step, Actor(step).value);
      ActorKeepsOrder(s, t, step, Actor(step).value);
    }
  }

  lemma NetKept(s: State, t: State, step: Step)
    requires SendersInv(s) && NetInv(s) && Next(s, t, step)
    ensures NetInv(t)
  {
    OthersStand(s, t, step);
    DatagramsKept(s, t, step);
    EntriesKept(s, t, step);
  }

  lemma DatagramsKept(s: State, t: State, step: Step)
    requires NetInv(s) && Next(s, t, step) && Grows(s, t)
    ensures forall d :: d in t.net ==> Genuine(t, d)
  {
    hide Next, Decodable, EntryOf, Genuine, GenuineEntry, Grows;
    forall d | d in t.net ensures Genuine(t, d) {
      NetEffects(s, t, step, d);
      GenuineStays(s, t, d);
    }
  }

  lemma EntriesKept(s: State, t: State, step: Step)
    requires SendersInv(s) && NetInv(s) && Next(s, t, step) && Grows(s, t)
    ensures forall k :: 0 <= k < |t.log| ==> GenuineEntry(t, t.log[k])
  {
    hide Next, GenuineEntry, SendersInv, Grows, NetInv;
    forall k | 0 <= k < |t.log| ensures GenuineEntry(t, t.log[k]) {
      EntryKept(s, t, step, k);
    }
  }

  lemma EntryKept(s: State, t: State, step: Step, k: nat)
    requires SendersInv(s) && NetInv(s) && Next(s, t, step) && Grows(s, t) && k < |t.log|
    ensures GenuineEntry(t, t.log[k])
  {
    hide Next, Decodable, EntryOf, Genuine, GenuineEntry, SendersInv, Grows;
    ReceptionEffects(s, t, step);
    if k < |s.log| {
      assert t.log[k] == s.log[k];
    } else {
      assert t.log[k] == EntryOf(step.d);
      ReceivedAsSent(s, step.d);
    }
    EntryStays(s, t, t.log[k]);
  }

  lemma GenuineStays(s: State, t: State, d: Datagram)
    requires Genuine(s, d) && Grows(s, t)
    ensures Genuine(t, d)
  {
    hide FrameOf;
  }

  lemma EntryStays(s: State, t: State, e: Entry)
    requires GenuineEntry(s, e) && Grows(s, t)
    ensures GenuineEntry(t, e)
  {
    hide NormalisePacket;
  }

  lemma ReceivedAsSent(s: State, d: Datagram)
    requires SendersInv(s) && Genuine(s, d) && Decodable(d)
    ensures GenuineEntry(s, EntryOf(d))
  {
    hide DecodeSpec, FrameOf, MissesComponent, Deframed, BigEndian, NormalisePacket, Fits, BudgetInv, OrderInv;
    assert SenderInv(s.peers[d.src], |s.peers|);
    DatagramRoundTrip(s.peers[d.src].started[d.index].packet, []);
    assert d.content + [] == d.content;
  }

  lemma LogGrows(log: seq<Entry>, e: Entry, src: nat, index: nat)
    ensures InLog(log, src, index) ==> InLog(log + [e], src, index)
    ensures e.src == src && e.index == index ==> InLog(log + [e], src, index)
    ensures CountIn(log + [e], src, index)
      == CountIn(log, src, index) + if e.src == src && e.index == index then 1 else 0
    ensures Precedes(log, src, index) && (e.src == src && e.index > index ==> InLog(log, src, index))
      ==> Precedes(log + [e], src, index)
  {
    var longer := log + [e];
    assert longer[..|longer| - 1] == log;
    if InLog(log, src, index) {
      var k :| 0 <= k < |log| && log[k].src == src && log[k].index == index;
      assert longer[k] == log[k];
    }
    assert longer[|log|] == e;
    assert forall k :: 0 <= k <= |log| ==> longer[..k] == log[..k];
    assert log[..|log|] == log;
  }

  lemma InLogStays(s: State, t: State, step: Step, src: nat, index: nat)
    requires Next(s, t, step)
    ensures InLog(s.log, src, index) ==> InLog(t.log, src, index)
    ensures step.Receive? && step.d.src == src && step.d.index == index ==> InLog(t.log, src, index)
  {
    ReceptionEffects(s, t, step);
    hide Next, Decodable, Genuine;
    if step.Receive? {
      LogGrows(s.log, EntryOf(step.d), src, index);
    }
  }

  lemma AckKept(s: State, t: State, step: Step)
    requires NetInv(s) && AckInv(s) && Next(s, t, step)
    ensures AckInv(t)
  {
    hide Next, Decodable, EntryOf, InLog, Genuine, NetInv, Grows;
    OthersStand(s, t, step);
    ReceptionEffects(s, t, step);
    GrowsTogether(s, t);
    forall a | a in t.acks ensures InLog(t.log, a.src, a.index) {
      InLogStays(s, t, step, a.src, a.index);
    }
    forall p, i | 0 <= p < |t.peers| && i in t.peers[p].acked ensures InLog(t.log, p, i) {
      InLogStays(s, t, step, p, i);
      if i !in s.peers[p].acked {
        AckedEffects(s, t, step, p, i);
        var a := Acknowledgement(p, i);
        assert InLog(s.log, a.src, a.index);
      }
    }
  }

  lemma OrderedKept(s: State, t: State, step: Step)
    requires NetInv(s) && AckInv(s) && OrderedInv(s) && Next(s, t, step)
    ensures OrderedInv(t)
  {
    OthersStand(s, t, step);
    ReceptionEffects(s, t, step);
    hide Next, Decodable, EntryOf, InLog, Genuine, NetInv, Grows, Precedes;
    forall p, i | 0 <= p < |t.peers| && i in t.peers[p].acked ensures Precedes(t.log, p, i) {
      if i !in s.peers[p].acked {
        AckedEffects(s, t, step, p, i);
        LatestPrecedes(s, p, i);
      } else if step.Receive? {
        LogGrows(s.log, EntryOf(step.d), p, i);
      }
    }
  }

  /** Nothing later has been started, so nothing later can be in the log. */
  lemma LatestPrecedes(s: State, p: nat, i: nat)
    requires NetInv(s) && p < |s.peers| && i + 1 == |s.peers[p].started|
    ensures Precedes(s.log, p, i)
  {
    hide InLog, NormalisePacket;
    assert forall k :: 0 <= k < |s.log| ==> GenuineEntry(s, s.log[k]);
  }

  lemma CountKept(s: State, t: State, step: Step)
    requires SendersInv(s) && NetInv(s) && CountInv(s) && Next(s, t, step)
    ensures CountInv(t)
  {
    OthersStand(s, t, step);
    forall p, i | Exists(t, p, i) ensures Counted(t, p, i) {
      if Exists(s, p, i) {
        assert Counted(s, p, i);
        CountStep(s, t, step, p, i);
      } else {
        NewMessageUncounted(s, t, step, p, i);
      }
    }
  }

  lemma SenderOf(s: State, p: nat)
    requires SendersInv(s) && p < |s.peers|
    ensures BudgetInv(s.peers[p])
  {
  }

  /** How one step changes the number of copies of one message's datagram: underway, */
  lemma CopiesUnderway(s: State, t: State, step: Step, p: nat, i: nat)
    requires SendersInv(s) && Next(s, t, step) && Exists(s, p, i)
    ensures var d := DatagramOf(p, s.peers[p], i);
      var sent := if step == Transmit(p) && i + 1 == |s.peers[p].started| then 1 else 0;
      var cloned := if step == Duplicate(d) then 1 else 0;
      t.net[d] + (if step == Receive(d) then 1 else 0) <= s.net[d] + sent + cloned
  {
    hide Decodable, EntryOf, Sendable, FrameOf, MissesComponent, OrderInv, MessagesFine, SendersInv;
    assert BudgetInv(s.peers[p]) by { SenderOf(s, p); }
    match step
    case Submit(_, _) =>
    case Begin(_) =>
    case Transmit(r) => SenderOf(s, r);
    case GiveUp(_) =>
    case Timeout(_) =>
    case GetAck(_) =>
    case Receive(_) =>
    case Lose(_) =>
    case LoseAck(_) =>
    case DuplicateAck(_) =>
    case Duplicate(_) =>
  }

  /** made by the network, */
  lemma NetworkCopies(s: State, t: State, step: Step)
    requires Next(s, t, step)
    ensures t.duplicated == s.duplicated + (if step.Duplicate? then multiset{step.d} else multiset{})
  {
    hide Decodable, EntryOf, Starts, DatagramOf;
  }

  /** and sent. */
  lemma OwnCopies(s: State, t: State, step: Step, p: nat, i: nat)
    requires Next(s, t, step) && Actor(step) == Some(p) && Exists(s, p, i) && BudgetInv(s.peers[p])
    ensures CopiesOf(t, p, i)
      == CopiesOf(s, p, i) + (if step.Transmit? && i + 1 == |s.peers[p].started| then 1 else 0)
  {
    hide Decodable, EntryOf, Sendable, FrameOf, MissesComponent, DatagramOf;
    match step
    case Submit(_, _) =>
    case Begin(_) =>
    case Transmit(_) =>
    case GiveUp(_) =>
    case Timeout(_) =>
    case GetAck(_) =>
    case _ =>
  }

  lemma CopiesMade(s: State, t: State, step: Step, p: nat, i: nat)
    requires SendersInv(s) && Next(s, t, step) && Exists(s, p, i)
    ensures var d := DatagramOf(p, s.peers[p], i);
      && t.duplicated[d] == s.duplicated[d] + (if step == Duplicate(d) then 1 else 0)
      && CopiesOf(t, p, i)
        == CopiesOf(s, p, i) + (if step == Transmit(p) && i + 1 == |s.peers[p].started| then 1 else 0)
  {
    hide Next, SendersInv, BudgetInv, Grows;
    NetworkCopies(s, t, step);
    OthersStand(s, t, step);
    GrowsTogether(s, t);
    if Actor(step) == Some(p) {
      SenderOf(s, p);
      OwnCopies(s, t, step, p, i);
    }
  }

  lemma GrowsTogether(s: State, t: State)
    requires Grows(s, t)
    ensures |t.peers| == |s.peers|
  {
  }

  lemma CountStep(s: State, t: State, step: Step, p: nat, i: nat)
    requires SendersInv(s) && NetInv(s) && Next(s, t, step)
    requires Exists(s, p, i) && Exists(t, p, i) && Counted(s, p, i)
    ensures Counted(t, p, i)
  {
    OthersStand(s, t, step);
    ReceptionEffects(s, t, step);
    CopiesUnderway(s, t, step, p, i);
    CopiesMade(s, t, step, p, i);
    hide Next, Decodable, EntryOf, FrameOf, SendersInv, CopiesOf;
    assert DatagramOf(p, t.peers[p], i) == DatagramOf(p, s.peers[p], i);
    if step.Receive? {
      LogGrows(s.log, EntryOf(step.d), p, i);
      EntryNames(step.d);
      assert Genuine(s, step.d);
    }
  }

  lemma EntryNames(d: Datagram)
    requires Decodable(d)
    ensures EntryOf(d).src == d.src && EntryOf(d).index == d.index
  {
  }

  lemma {:induction false} NotInLog(log: seq<Entry>, src: nat, index: nat)
    requires !InLog(log, src, index)
    ensures CountIn(log, src, index) == 0
  {
    if |log| > 0 {
      assert !InLog(log[..|log| - 1], src, index);
      NotInLog(log[..|log| - 1], src, index);
    }
  }

  lemma NewMessageUncounted(s: State, t: State, step: Step, p: nat, i: nat)
    requires NetInv(s) && Next(s, t, step) && Grows(s, t)
    requires !Exists(s, p, i) && Exists(t, p, i)
    ensures Counted(t, p, i)
  {
    NotYetReceived(s, p, i);
    OnlyBeginStarts(s, t, step, p);
    hide Next, NetInv, InLog, CountIn, SendersInv, FrameOf;
    assert DatagramOf(p, t.peers[p], i) !in t.net;
  }

  lemma OnlyBeginStarts(s: State, t: State, step: Step, p: nat)
    requires Next(s, t, step) && p < |s.peers| && p < |t.peers|
    ensures t.peers[p].started == s.peers[p].started || (t.log == s.log && t.net == s.net)
  {
    hide Decodable, EntryOf, Sendable, FrameOf, MissesComponent;
  }

  lemma NotYetReceived(s: State, p: nat, i: nat)
    requires NetInv(s) && !Exists(s, p, i)
    ensures CountIn(s.log, p, i) == 0
    ensures forall d :: d in s.net ==> !(d.src == p && d.index == i)
  {
    hide FrameOf, NormalisePacket;
    assert forall k :: 0 <= k < |s.log| ==> GenuineEntry(s, s.log[k]);
    NotInLog(s.log, p, i);
  }

  lemma StepKeeps(s: State, t: State, step: Step)
    requires Inv(s) && Next(s, t, step)
    ensures Inv(t)
  {
    hide Next, SendersInv, NetInv, AckInv, OrderedInv, CountInv;
    SendersKept(s, t, step);
    NetKept(s, t, step);
    AckKept(s, t, step);
    OrderedKept(s, t, step);
    CountKept(s, t, step);
  }

  lemma InitInv(s: State)
    requires Init(s)
    ensures Inv(s)
  {
    assert SendersInv(s) by {
      assert PacketsOf(QUIET.submitted[..0]) == [] && QUIET.submitted[..0] == [];
    }
  }

  lemma {:induction false} RunKeeps(states: seq<State>, steps: seq<Step>, n: nat)
    requires Run(states, steps) && n < |states|
    ensures Inv(states[n])
  {
    hide Inv, Next, Init;
    if n == 0 {
      InitInv(states[0]);
    } else {
      RunKeeps(states, steps, n - 1);
      StepKeeps(states[n - 1], states[n], steps[n - 1]);
    }
  }

  // ---------- theorems ----------

  /**
   * A peer that has finished with a message has done what sendMessageTo does on the same
   * replies: the same end, after as many sends, each the same datagram to the addressee.
   */
  lemma LoopIsRefined(states: seq<State>, steps: seq<Step>, n: nat, p: nat)
    requires Run(states, steps) && n < |states| && p < |states[n].peers|
    requires states[n].peers[p].phase.Idle? && states[n].peers[p].started != []
    ensures var s := states[n].peers[p];
      var i := Current(s);
      var m := s.started[i];
      && |s.copies| == |s.started| && s.copies[i] <= |s.replies|
      && Ends(s.replies, s.copies[i], if i in s.acked then Acknowledged else GaveUp)
      && forall k :: 0 <= k < s.copies[i] ==>
           Copies(m.peer, FrameOf(m.packet), s.replies, s.copies[i])[k] == Transmission(m.peer, FrameOf(m.packet))
  {
    hide *;
    RunKeeps(states, steps, n);
    SenderInInv(states[n], p);
    FinishedLikeLoop(states[n].peers[p]);
  }

  lemma SenderInInv(s: State, p: nat)
    requires Inv(s) && p < |s.peers|
    ensures BudgetInv(s.peers[p]) && RepliesInv(s.peers[p])
  {
    assert SenderInv(s.peers[p], |s.peers|);
  }

  lemma FinishedLikeLoop(s: Sender)
    requires BudgetInv(s) && RepliesInv(s) && s.phase.Idle? && s.started != []
    ensures var i := Current(s);
      var m := s.started[i];
      && |s.copies| == |s.started| && s.copies[i] <= |s.replies|
      && Ends(s.replies, s.copies[i], if i in s.acked then Acknowledged else GaveUp)
      && forall k :: 0 <= k < s.copies[i] ==>
           Copies(m.peer, FrameOf(m.packet), s.replies, s.copies[i])[k] == Transmission(m.peer, FrameOf(m.packet))
  {
    hide FrameOf;
    var m := s.started[Current(s)];
    assert forall j :: 0 <= j < |s.replies| - 1 ==> s.replies[..|s.replies| - 1][j] == s.replies[j];
    CopiesReachTarget(m.peer, FrameOf(m.packet), s.replies, |s.replies|);
  }

  /** An acknowledged packet has been decoded by its addressee, as sent up to normalisation. */
  lemma AcknowledgedMeansReceived(states: seq<State>, steps: seq<Step>, n: nat, p: nat, i: nat)
    requires Run(states, steps) && n < |states|
    requires p < |states[n].peers| && i in states[n].peers[p].acked
    ensures var s, sender := states[n], states[n].peers[p];
      && i < |sender.started| <= |sender.submitted|
      && sender.started[i].peer == sender.submitted[i].peer
      && Entry(sender.submitted[i].peer, p, i, NormalisePacket(sender.started[i].packet)) in s.log
  {
    RunKeeps(states, steps, n);
    hide Run, NormalisePacket;
    var s := states[n];
    assert SenderInv(s.peers[p], |s.peers|);
    assert InLog(s.log, p, i);
    var k :| 0 <= k < |s.log| && s.log[k].src == p && s.log[k].index == i;
    assert GenuineEntry(s, s.log[k]);
  }

  lemma PrecedesInInv(s: State, p: nat, i: nat, k: nat)
    requires Inv(s) && p < |s.peers| && i in s.peers[p].acked
    requires k < |s.log| && s.log[k].src == p && s.log[k].index > i
    ensures InLog(s.log[..k], p, i)
  {
    hide InLog, SendersInv, NetInv, AckInv, CountInv;
    assert Precedes(s.log, p, i);
  }

  /** No packet a peer sends later is received anywhere before an acknowledged one is. */
  lemma FirstReceptionsInOrder(states: seq<State>, steps: seq<Step>, n: nat, p: nat, i: nat, k: nat)
    requires Run(states, steps) && n < |states|
    requires p < |states[n].peers| && i in states[n].peers[p].acked
    requires k < |states[n].log| && states[n].log[k].src == p && states[n].log[k].index > i
    ensures exists l :: 0 <= l < k && states[n].log[l].src == p && states[n].log[l].index == i
  {
    hide Run, Inv, Precedes;
    RunKeeps(states, steps, n);
    var log := states[n].log;
    PrecedesInInv(states[n], p, i, k);
    var l :| 0 <= l < k && log[..k][l].src == p && log[..k][l].index == i;
    assert log[l] == log[..k][l];
  }

  /** Sent at most ten times, and received at most as often, but for the network's own copies. */
  lemma CopyBound(states: seq<State>, steps: seq<Step>, n: nat, p: nat, i: nat)
    requires Run(states, steps) && n < |states| && Exists(states[n], p, i)
    ensures var s := states[n];
      var cloned := s.duplicated[DatagramOf(p, s.peers[p], i)];
      && CopiesOf(s, p, i) <= 10
      && CountIn(s.log, p, i) <= CopiesOf(s, p, i) + cloned
  {
    RunKeeps(states, steps, n);
    hide Run, FrameOf;
    var s := states[n];
    assert SenderInv(s.peers[p], |s.peers|);
    assert Counted(s, p, i);
  }

  /** A peer's packets go out in the order queued, the auto ids handed out in that order. */
  lemma SentInSubmissionOrder(states: seq<State>, steps: seq<Step>, n: nat, p: nat)
    requires Run(states, steps) && n < |states| && p < |states[n].peers|
    ensures var sender := states[n].peers[p];
      && |sender.started| <= |sender.submitted|
      && AutoAfter(0, PacketsOf(sender.submitted[..|sender.started|])) < TWO_31
      && PacketsOf(sender.started) == Assigned(0, PacketsOf(sender.submitted[..|sender.started|]))
  {
    RunKeeps(states, steps, n);
    assert SenderInv(states[n].peers[p], |states[n].peers|);
  }
}
