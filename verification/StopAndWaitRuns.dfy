/** Runs of StopAndWait that do happen: deliveries at any moment, and the bound on copies attained. */
module StopAndWaitRuns {
  import opened Bytes
  import opened Integers
  import opened PacketTypes
  import opened PacketCodec
  import opened Outgoing
  import opened Udp
  import opened StopAndWait

  lemma Extend(before: seq<State>, taken: seq<Step>, t: State, step: Step)
    returns (states: seq<State>, steps: seq<Step>)
    requires before != [] && Run(before, taken) && Next(before[|before| - 1], t, step)
    ensures Run(states, steps) && states != [] && states[|states| - 1] == t
  {
    hide Next;
    states, steps := before + [t], taken + [step];
  }

  /** The peer has nothing to do, and may be given a message to a peer that exists. */
  ghost predicate Ready(s: State, p: nat, m: Message) {
    && p < |s.peers| && m.peer < |s.peers|
    && s.peers[p].phase.Idle? && s.peers[p].queue == [] && |s.peers[p].copies| == |s.peers[p].started|
    && (m.packet.id == -1 ==> s.peers[p].autoId < 0x7FFF_FFFF)
    && Sendable(Numbered(m.packet, s.peers[p].autoId)) && !MissesComponent(m.packet.payload)
  }

  /** The sender once it has taken the message up. */
  function Taken(s: Sender, m: Message): Sender
    requires m.packet.id == -1 ==> s.autoId < 0x7FFF_FFFF
  {
    s.(phase := Sending, budget := 10, replies := [], submitted := s.submitted + [m],
       autoId := if m.packet.id == -1 then s.autoId + 1 else s.autoId,
       started := s.started + [Addressed(m.peer, Numbered(m.packet, s.autoId))], copies := s.copies + [0])
  }

  lemma TakeUp(s: State, p: nat, m: Message) returns (s1: State, s2: State)
    requires Ready(s, p, m)
    ensures Next(s, s1, Submit(p, m)) && Next(s1, s2, Begin(p))
    ensures s2 == s.(peers := s.peers[p := Taken(s.peers[p], m)])
  {
    hide Sendable, MissesComponent, Numbered;
    var before := s.peers[p];
    s1 := s.(peers := s.peers[p := before.(queue := before.queue + [m], submitted := before.submitted + [m])]);
    s2 := s.(peers := s.peers[p := Taken(before, m)]);
    assert before.queue + [m] == [m] && [m][1..] == [];
  }

  /** Sending, with a message that can be sent and copies left. */
  ghost predicate Underway(s: State, p: nat) {
    && p < |s.peers| && s.peers[p].phase.Sending? && s.peers[p].budget > 0
    && s.peers[p].started != [] && |s.peers[p].copies| == |s.peers[p].started|
    && var m := s.peers[p].started[|s.peers[p].started| - 1];
      m.peer < |s.peers| && Sendable(m.packet) && !MissesComponent(m.packet.payload)
  }

  function Latest(s: Sender): Message
    requires s.started != []
  {
    s.started[|s.started| - 1]
  }

  /** The entry that receiving the latest message makes. */
  function LatestEntry(s: State, p: nat): Entry
    requires p < |s.peers| && s.peers[p].started != []
  {
    var m := Latest(s.peers[p]);
    Entry(m.peer, p, |s.peers[p].started| - 1, NormalisePacket(m.packet))
  }

  function OneMoreCopy(s: Sender): Sender
    requires s.started != [] && |s.copies| == |s.started|
  {
    var i := |s.started| - 1;
    s.(phase := Awaiting, copies := s.copies[i := s.copies[i] + 1])
  }

  /** A copy goes out and arrives, and the addressee acknowledges it. */
  lemma CopyArrives(s: State, p: nat) returns (s1: State, s2: State, d: Datagram)
    requires Underway(s, p)
    ensures Next(s, s1, Transmit(p)) && Next(s1, s2, Receive(d))
    ensures s2 == s.(peers := s.peers[p := OneMoreCopy(s.peers[p])], log := s.log + [LatestEntry(s, p)],
                     acks := s.acks + multiset{Acknowledgement(p, |s.peers[p].started| - 1)})
  {
    hide Sendable, MissesComponent, FrameOf, NormalisePacket, Deframed, DecodeSpec, BigEndian;
    var x, m := s.peers[p], Latest(s.peers[p]);
    d := Datagram(p, |x.started| - 1, m.peer, FrameOf(m.packet));
    SendableFrame(m.packet);
    s1 := s.(net := s.net + multiset{d}, peers := s.peers[p := OneMoreCopy(x)]);
    s2 := s1.(net := s1.net - multiset{d}, log := s1.log + [LatestEntry(s, p)],
              acks := s1.acks + multiset{Acknowledgement(p, |x.started| - 1)});
    assert s1.net - multiset{d} == s.net;
  }

  lemma SendableFrame(p: Packet)
    requires Sendable(p) && !MissesComponent(p.payload)
    ensures var d := FrameOf(p);
      && |d| >= 4 && |d| - 4 >= BigEndian(d[..4])
      && DecodeSpec(Deframed(d)).Success? && DecodeSpec(Deframed(d)).value == NormalisePacket(p)
  {
    hide FrameOf, NormalisePacket, Deframed, DecodeSpec, BigEndian, Fits, MissesComponent;
    DatagramRoundTrip(p, []);
    assert FrameOf(p) + [] == FrameOf(p);
  }

  /** A peer with the message delivered and acknowledged at the first copy. */
  function Served(s: Sender, m: Message): Sender
    requires m.packet.id == -1 ==> s.autoId < 0x7FFF_FFFF
  {
    s.(budget := 10, replies := [From(m.peer, 49)], submitted := s.submitted + [m],
       autoId := if m.packet.id == -1 then s.autoId + 1 else s.autoId,
       started := s.started + [Addressed(m.peer, Numbered(m.packet, s.autoId))],
       copies := s.copies + [1], acked := s.acked + {|s.started|})
  }

  function Acked(s: Sender): Sender
    requires s.started != [] && |s.copies| == |s.started|
  {
    OneMoreCopy(s).(phase := Idle, acked := s.acked + {|s.started| - 1},
                    replies := s.replies + [From(Latest(s).peer, 49)])
  }

  lemma CopyIsAcked(s: State, p: nat) returns (s1: State, s2: State, t: State, d: Datagram)
    requires Underway(s, p)
    ensures Next(s, s1, Transmit(p)) && Next(s1, s2, Receive(d)) && Next(s2, t, GetAck(p))
    ensures t == s.(peers := s.peers[p := Acked(s.peers[p])], log := s.log + [LatestEntry(s, p)])
  {
    hide Next, Sendable, MissesComponent, NormalisePacket;
    s1, s2, d := CopyArrives(s, p);
    t := ReadAck(s2, p);
    var a := Acknowledgement(p, |s.peers[p].started| - 1);
    assert s.acks + multiset{a} - multiset{a} == s.acks;
    assert t.peers == s.peers[p := Acked(s.peers[p])];
  }

  lemma ServedIs(s: Sender, m: Message)
    requires m.packet.id == -1 ==> s.autoId < 0x7FFF_FFFF
    requires s.phase.Idle? && |s.copies| == |s.started|
    ensures Acked(Taken(s, m)) == Served(s, m)
  {
    assert Taken(s, m).copies[|s.started| := 1] == s.copies + [1];
  }

  lemma TakenIsUnderway(s: State, t: State, p: nat, m: Message)
    requires Ready(s, p, m) && t == s.(peers := s.peers[p := Taken(s.peers[p], m)])
    ensures Underway(t, p)
    ensures LatestEntry(t, p)
      == Entry(m.peer, p, |s.peers[p].started|, NormalisePacket(Numbered(m.packet, s.peers[p].autoId)))
  {
    hide Sendable, NormalisePacket;
  }

  /** At every moment at which a peer is idle, another message can be delivered with one copy. */
  lemma DeliverOne(before: seq<State>, taken: seq<Step>, p: nat, m: Message)
    returns (states: seq<State>, steps: seq<Step>)
    requires before != [] && Run(before, taken) && Ready(before[|before| - 1], p, m)
    ensures Run(states, steps) && states != []
    ensures var s, x := before[|before| - 1], before[|before| - 1].peers[p];
      states[|states| - 1] == s.(peers := s.peers[p := Served(x, m)],
        log := s.log + [Entry(m.peer, p, |x.started|, NormalisePacket(Numbered(m.packet, x.autoId)))])
  {
    hide Run, Next, Sendable, MissesComponent, NormalisePacket, Numbered, Underway, LatestEntry, Acked, Served, Taken;
    var s := before[|before| - 1];
    var s1, s2 := TakeUp(s, p, m);
    TakenIsUnderway(s, s2, p, m);
    var s3, s4, s5, d := CopyIsAcked(s2, p);
    ServedIs(s.peers[p], m);
    states, steps := Extend(before, taken, s1, Submit(p, m));
    states, steps := Extend(states, steps, s2, Begin(p));
    states, steps := Extend(states, steps, s3, Transmit(p));
    states, steps := Extend(states, steps, s4, Receive(d));
    states, steps := Extend(states, steps, s5, GetAck(p));
  }

  lemma ReadAck(s: State, p: nat) returns (t: State)
    requires p < |s.peers| && s.peers[p].phase.Awaiting? && s.peers[p].started != []
    requires Acknowledgement(p, |s.peers[p].started| - 1) in s.acks
    ensures Next(s, t, GetAck(p))
    ensures var x, i := s.peers[p], |s.peers[p].started| - 1;
      t == s.(acks := s.acks - multiset{Acknowledgement(p, i)},
              peers := s.peers[p := x.(phase := Idle, acked := x.acked + {i},
                                       replies := x.replies + [From(x.started[i].peer, 49)])])
  {
    var x, i := s.peers[p], |s.peers[p].started| - 1;
    t := s.(acks := s.acks - multiset{Acknowledgement(p, i)},
            peers := s.peers[p := x.(phase := Idle, acked := x.acked + {i},
                                     replies := x.replies + [From(x.started[i].peer, 49)])]);
  }

  /** All of one peer's messages acknowledged at the first copy, and nothing else anywhere. */
  ghost predicate AllServed(s: State, peers: nat, p: nat, ms: seq<Message>)
    requires p < peers && AutoAfter(0, PacketsOf(ms)) < TWO_31
  {
    && |s.peers| == peers && s.net == multiset{} && s.acks == multiset{}
    && var x, sent := s.peers[p], Assigned(0, PacketsOf(ms));
      && x.phase.Idle? && x.queue == [] && x.submitted == ms && x.autoId == AutoAfter(0, PacketsOf(ms))
      && EachServed(x, s.log, p, ms, sent)
  }

  ghost predicate EachServed(x: Sender, log: seq<Entry>, p: nat, ms: seq<Message>, sent: seq<Packet>)
    requires |sent| == |ms|
  {
    && |x.started| == |x.copies| == |log| == |ms|
    && (forall i :: i in x.acked <==> 0 <= i < |ms|)
    && (forall i :: 0 <= i < |ms| ==> x.started[i] == Addressed(ms[i].peer, sent[i]) && x.copies[i] == 1)
    && (forall i :: 0 <= i < |ms| ==> log[i] == Entry(ms[i].peer, p, i, NormalisePacket(sent[i])))
  }

  lemma EachServedSnoc(x: Sender, log: seq<Entry>, p: nat, ms: seq<Message>, sent: seq<Packet>, m: Message)
    requires |sent| == |ms| && EachServed(x, log, p, ms, sent)
    requires m.packet.id == -1 ==> x.autoId < 0x7FFF_FFFF
    ensures EachServed(Served(x, m), log + [Entry(m.peer, p, |ms|, NormalisePacket(Numbered(m.packet, x.autoId)))],
                       p, ms + [m], sent + [Numbered(m.packet, x.autoId)])
  {
    hide NormalisePacket, Numbered;
  }

  ghost predicate Deliverable(ms: seq<Message>, peers: nat) {
    && AutoAfter(0, PacketsOf(ms)) < TWO_31
    && AllSendable(Assigned(0, PacketsOf(ms)))
    && forall i :: 0 <= i < |ms| ==> ms[i].peer < peers && !MissesComponent(ms[i].packet.payload)
  }

  lemma LastIsReady(s: State, peers: nat, p: nat, init: seq<Message>, m: Message)
    requires p < peers && Deliverable(init + [m], peers)
    ensures Deliverable(init, peers)
    ensures AllServed(s, peers, p, init) ==> Ready(s, p, m)
    ensures AutoAfter(0, PacketsOf(init)) < TWO_31 && (m.packet.id == -1 ==> AutoAfter(0, PacketsOf(init)) < 0x7FFF_FFFF)
    ensures Assigned(0, PacketsOf(init + [m]))
      == Assigned(0, PacketsOf(init)) + [Numbered(m.packet, AutoAfter(0, PacketsOf(init)))]
    ensures AutoAfter(0, PacketsOf(init + [m])) == AutoAfter(0, PacketsOf(init)) + if m.packet.id == -1 then 1 else 0
  {
    hide Sendable, MissesComponent, AutoAfter, Assigned, Numbered, NormalisePacket, PacketsOf;
    PacketsSnoc(init, m);
    AssignedSnoc(0, PacketsOf(init), m.packet);
    AutoAfterSnoc(0, PacketsOf(init), m.packet);
    var sent := Assigned(0, PacketsOf(init + [m]));
    assert Sendable(sent[|init|]);
    assert forall i :: 0 <= i < |init| ==> (init + [m])[i] == init[i] && sent[i] == Assigned(0, PacketsOf(init))[i];
    assert (init + [m])[|init|] == m;
  }

  lemma OneMoreServed(s: State, t: State, peers: nat, p: nat, init: seq<Message>, m: Message)
    requires p < peers && Deliverable(init + [m], peers) && Deliverable(init, peers)
    requires AllServed(s, peers, p, init)
    requires m.packet.id == -1 ==> s.peers[p].autoId < 0x7FFF_FFFF
    requires var x := s.peers[p];
      t == s.(peers := s.peers[p := Served(x, m)],
        log := s.log + [Entry(m.peer, p, |x.started|, NormalisePacket(Numbered(m.packet, x.autoId)))])
    ensures AllServed(t, peers, p, init + [m])
  {
    hide Sendable, MissesComponent, AutoAfter, Assigned, Numbered, NormalisePacket, PacketsOf, Deliverable, EachServed;
    LastIsReady(s, peers, p, init, m);
    EachServedSnoc(s.peers[p], s.log, p, init, Assigned(0, PacketsOf(init)), m);
    LogLength(s.peers[p], s.log, p, init, Assigned(0, PacketsOf(init)));
    assert AutoAfter(0, PacketsOf(init + [m])) < TWO_31 by { DeliverableIds(init + [m], peers); }
  }

  lemma LogLength(x: Sender, log: seq<Entry>, p: nat, ms: seq<Message>, sent: seq<Packet>)
    requires |sent| == |ms| && EachServed(x, log, p, ms, sent)
    ensures |x.started| == |ms|
  {
    hide NormalisePacket;
  }

  lemma DeliverableIds(ms: seq<Message>, peers: nat)
    requires Deliverable(ms, peers)
    ensures AutoAfter(0, PacketsOf(ms)) < TWO_31
  {
    hide Sendable, AutoAfter, Assigned;
  }

  /** Any messages of a peer that can be sent can be delivered, in order, with one copy each. */
  lemma {:induction false} AllCanBeDelivered(peers: nat, p: nat, ms: seq<Message>)
    returns (states: seq<State>, steps: seq<Step>)
    requires p < peers && Deliverable(ms, peers)
    ensures Run(states, steps) && states != [] && AllServed(states[|states| - 1], peers, p, ms)
  {
    if |ms| == 0 {
      states, steps := [State(seq(peers, _ => QUIET), multiset{}, multiset{}, [], multiset{})], [];
    } else {
      hide Run, Sendable, MissesComponent, AutoAfter, Assigned, AllServed, Deliverable, Served, NormalisePacket, Numbered, PacketsOf;
      var init, m := ms[..|ms| - 1], ms[|ms| - 1];
      assert ms == init + [m];
      LastIsReady(State([], multiset{}, multiset{}, [], multiset{}), peers, p, init, m);
      states, steps := AllCanBeDelivered(peers, p, init);
      var s := states[|states| - 1];
      LastIsReady(s, peers, p, init, m);
      states, steps := DeliverOne(states, steps, p, m);
      OneMoreServed(s, states[|states| - 1], peers, p, init, m);
    }
  }

  /** A peer after k copies of the message, all unanswered. */
  function Tried(s: Sender, m: Message, k: nat): Sender
    requires m.packet.id == -1 ==> s.autoId < 0x7FFF_FFFF
    requires k <= 10
  {
    Taken(s, m).(budget := 10 - k, replies := seq(k, _ => TimedOut), copies := s.copies + [k])
  }

  lemma TriedIsUnderway(s: State, t: State, p: nat, m: Message, k: nat, log: seq<Entry>)
    requires Ready(s, p, m) && k < 10 && t == s.(peers := s.peers[p := Tried(s.peers[p], m, k)], log := log)
    ensures Underway(t, p)
    ensures LatestEntry(t, p)
      == Entry(m.peer, p, |s.peers[p].started|, NormalisePacket(Numbered(m.packet, s.peers[p].autoId)))
    ensures OneMoreCopy(t.peers[p]).(phase := Sending, budget := 9 - k, replies := t.peers[p].replies + [TimedOut])
      == Tried(s.peers[p], m, k + 1)
  {
    hide Sendable, NormalisePacket;
    assert t.peers[p].copies[|s.peers[p].copies| := k + 1] == s.peers[p].copies + [k + 1];
    assert seq(k, _ => TimedOut) + [TimedOut] == seq(k + 1, _ => TimedOut);
  }

  /** A copy arrives, but its acknowledgement is lost and the wait times out. */
  lemma CopyGoesUnanswered(s: State, p: nat) returns (s1: State, s2: State, s3: State, t: State, d: Datagram)
    requires Underway(s, p)
    ensures Next(s, s1, Transmit(p)) && Next(s1, s2, Receive(d))
    ensures Next(s2, s3, LoseAck(Acknowledgement(p, |s.peers[p].started| - 1))) && Next(s3, t, Timeout(p))
    ensures var x := s.peers[p];
      t == s.(log := s.log + [LatestEntry(s, p)], peers := s.peers[p :=
        OneMoreCopy(x).(phase := Sending, budget := x.budget - 1, replies := x.replies + [TimedOut])])
  {
    hide Next, Sendable, MissesComponent, NormalisePacket, LatestEntry;
    s1, s2, d := CopyArrives(s, p);
    var a := Acknowledgement(p, |s.peers[p].started| - 1);
    assert s.acks + multiset{a} - multiset{a} == s.acks;
    s3, t := AckLost(s2, p, a);
    var x := OneMoreCopy(s.peers[p]);
    assert s2.peers[p] == x;
    var y := x.(phase := Sending, budget := x.budget - 1, replies := x.replies + [TimedOut]);
    assert s2.peers[p := y] == s.peers[p := y];
  }

  lemma AckLost(s: State, p: nat, a: Acknowledgement) returns (s1: State, t: State)
    requires a in s.acks && p < |s.peers| && s.peers[p].phase.Awaiting? && s.peers[p].budget > 0
    ensures Next(s, s1, LoseAck(a)) && Next(s1, t, Timeout(p))
    ensures var x := s.peers[p];
      t == s.(acks := s.acks - multiset{a}, peers := s.peers[p :=
        x.(phase := Sending, budget := x.budget - 1, replies := x.replies + [TimedOut])])
  {
    s1 := s.(acks := s.acks - multiset{a});
    var x := s1.peers[p];
    t := s1.(peers := s1.peers[p := x.(phase := Sending, budget := x.budget - 1, replies := x.replies + [TimedOut])]);
  }

  lemma {:induction false} TryOften(before: seq<State>, taken: seq<Step>, p: nat, m: Message, k: nat)
    returns (states: seq<State>, steps: seq<Step>)
    requires before != [] && Run(before, taken) && Ready(before[|before| - 1], p, m) && k <= 10
    ensures Run(states, steps) && states != []
    ensures var s, x := before[|before| - 1], before[|before| - 1].peers[p];
      var entry := Entry(m.peer, p, |x.started|, NormalisePacket(Numbered(m.packet, x.autoId)));
      states[|states| - 1] == s.(peers := s.peers[p := Tried(x, m, k)], log := s.log + seq(k, _ => entry))
  {
    hide Run, Next, Sendable, MissesComponent, NormalisePacket, Numbered, Underway, LatestEntry, OneMoreCopy, Taken;
    var s, x := before[|before| - 1], before[|before| - 1].peers[p];
    ghost var entry := Entry(m.peer, p, |x.started|, NormalisePacket(Numbered(m.packet, x.autoId)));
    if k == 0 {
      var s1, s2 := TakeUp(s, p, m);
      states, steps := Extend(before, taken, s1, Submit(p, m));
      states, steps := Extend(states, steps, s2, Begin(p));
      TriedNothing(x, m);
      assert s.log + seq(0, _ => entry) == s.log;
    } else {
      states, steps := TryOften(before, taken, p, m, k - 1);
      var tried := states[|states| - 1];
      TriedIsUnderway(s, tried, p, m, k - 1, tried.log);
      assert |tried.peers[p].started| > 0 by { UnderwayHasStarted(tried, p); }
      var s1, s2, s3, t, d := CopyGoesUnanswered(tried, p);
      states, steps := Extend(states, steps, s1, Transmit(p));
      states, steps := Extend(states, steps, s2, Receive(d));
      states, steps := Extend(states, steps, s3, LoseAck(Acknowledgement(p, |tried.peers[p].started| - 1)));
      states, steps := Extend(states, steps, t, Timeout(p));
      assert s.log + seq(k - 1, _ => entry) + [entry] == s.log + seq(k, _ => entry);
      assert tried.peers[p := Tried(x, m, k)] == s.peers[p := Tried(x, m, k)];
    }
  }

  lemma UnderwayHasStarted(s: State, p: nat)
    requires Underway(s, p)
    ensures p < |s.peers| && |s.peers[p].started| > 0
  {
  }

  lemma TriedNothing(s: Sender, m: Message)
    requires m.packet.id == -1 ==> s.autoId < 0x7FFF_FFFF
    ensures Tried(s, m, 0) == Taken(s, m)
  {
  }

  /** The bounds are attained: a message received ten times, and given up all the same. */
  lemma TenReceivedAndGivenUp(before: seq<State>, taken: seq<Step>, p: nat, m: Message)
    returns (states: seq<State>, steps: seq<Step>)
    requires before != [] && Run(before, taken) && Ready(before[|before| - 1], p, m)
    ensures Run(states, steps) && states != []
    ensures var s, t, i := before[|before| - 1], states[|states| - 1], |before[|before| - 1].peers[p].started|;
      && |t.peers| == |s.peers| && t.net == s.net && t.acks == s.acks && t.duplicated == s.duplicated
      && t.peers[p].phase.Idle? && |t.peers[p].started| == |t.peers[p].copies| == i + 1
      && t.peers[p].copies[i] == 10 && t.peers[p].acked == s.peers[p].acked
      && |t.log| == |s.log| + 10 && t.log[..|s.log|] == s.log
      && forall k :: |s.log| <= k < |t.log| ==>
           t.log[k] == Entry(m.peer, p, i, NormalisePacket(Numbered(m.packet, s.peers[p].autoId)))
  {
    hide Run, Sendable, MissesComponent, NormalisePacket, Numbered;
    states, steps := TryOften(before, taken, p, m, 10);
    var s := states[|states| - 1];
    var t := s.(peers := s.peers[p := s.peers[p].(phase := Idle)]);
    states, steps := Extend(states, steps, t, GiveUp(p));
  }

  ghost predicate Enabled(s: State, step: Step) {
    exists t :: Next(s, t, step)
  }

  /**
   * The network is free: at every moment of every run, any datagram underway may be the next
   * to arrive, to be lost or to be doubled, and any acknowledgement to be lost or doubled.
   */
  lemma NetworkIsFree(states: seq<State>, steps: seq<Step>, n: nat, d: Datagram, a: Acknowledgement)
    requires Run(states, steps) && n < |states|
    ensures d in states[n].net ==>
      Enabled(states[n], Receive(d)) && Enabled(states[n], Lose(d)) && Enabled(states[n], Duplicate(d))
    ensures a in states[n].acks ==> Enabled(states[n], LoseAck(a)) && Enabled(states[n], DuplicateAck(a))
  {
    hide *;
    RunKeeps(states, steps, n);
    if d in states[n].net {
      GenuineDecodes(states[n], d);
      DatagramIsFree(states[n], d);
    }
    if a in states[n].acks {
      AckIsFree(states[n], a);
    }
  }

  lemma DatagramIsFree(s: State, d: Datagram)
    requires d in s.net && Decodable(d)
    ensures Enabled(s, Receive(d)) && Enabled(s, Lose(d)) && Enabled(s, Duplicate(d))
  {
    hide Decodable, EntryOf;
    assert Next(s, s.(net := s.net - multiset{d}, log := s.log + [EntryOf(d)],
                      acks := s.acks + multiset{Acknowledgement(d.src, d.index)}), Receive(d));
    assert Next(s, s.(net := s.net - multiset{d}), Lose(d));
    assert Next(s, s.(net := s.net + multiset{d}, duplicated := s.duplicated + multiset{d}), Duplicate(d));
  }

  lemma AckIsFree(s: State, a: Acknowledgement)
    requires a in s.acks
    ensures Enabled(s, LoseAck(a)) && Enabled(s, DuplicateAck(a))
  {
    assert Next(s, s.(acks := s.acks - multiset{a}), LoseAck(a));
    assert Next(s, s.(acks := s.acks + multiset{a}), DuplicateAck(a));
  }

  lemma GenuineDecodes(s: State, d: Datagram)
    requires Inv(s) && d in s.net
    ensures Decodable(d)
  {
    hide FrameOf, Sendable, MissesComponent, Deframed, DecodeSpec, BigEndian, AckInv, OrderedInv, CountInv;
    assert Genuine(s, d);
    assert SenderInv(s.peers[d.src], |s.peers|);
    SendableFrame(s.peers[d.src].started[d.index].packet);
  }

  /** A peer takes messages at any time, and waits for replies alone, one second each. */
  lemma PeersAreFree(s: State, p: nat, m: Message)
    requires p < |s.peers|
    ensures Enabled(s, Submit(p, m))
    ensures Underway(s, p) ==> Enabled(s, Transmit(p))
    ensures s.peers[p].phase.Sending? && s.peers[p].budget == 0 ==> Enabled(s, GiveUp(p))
    ensures s.peers[p].phase.Awaiting? && s.peers[p].budget > 0 ==> Enabled(s, Timeout(p))
    ensures s.peers[p].phase.Awaiting? && |s.peers[p].started| > 0 ==>
      (Acknowledgement(p, |s.peers[p].started| - 1) in s.acks ==> Enabled(s, GetAck(p)))
  {
    hide FrameOf, Starts, Sendable, MissesComponent;
    var x := s.peers[p];
    assert Next(s, s.(peers := s.peers[p := x.(queue := x.queue + [m], submitted := x.submitted + [m])]), Submit(p, m));
    if x.phase.Sending? {
      if x.budget == 0 {
        assert Next(s, s.(peers := s.peers[p := x.(phase := Idle)]), GiveUp(p));
      } else if x.started != [] && |x.copies| == |x.started| {
        assert Next(s, s.(net := s.net + multiset{DatagramOf(p, x, Current(x))},
                          peers := s.peers[p := OneMoreCopy(x)]), Transmit(p));
      }
    } else if x.phase.Awaiting? {
      WaitIsFree(s, p);
    }
  }

  lemma WaitIsFree(s: State, p: nat)
    requires p < |s.peers| && s.peers[p].phase.Awaiting?
    ensures s.peers[p].budget > 0 ==> Enabled(s, Timeout(p))
    ensures s.peers[p].started != [] && Acknowledgement(p, |s.peers[p].started| - 1) in s.acks ==> Enabled(s, GetAck(p))
  {
    hide FrameOf, Starts;
    var x := s.peers[p];
    if x.budget > 0 {
      assert Next(s, s.(peers := s.peers[p := x.(phase := Sending, budget := x.budget - 1,
                                                 replies := x.replies + [TimedOut])]), Timeout(p));
    }
    if x.started != [] && Acknowledgement(p, |x.started| - 1) in s.acks {
      var t := ReadAck(s, p);
    }
  }
}
