/** UdpNetworking: one datagram per packet, retransmitted until acknowledged. */
module Udp {
  import opened Wrappers
  import opened Bytes
  import opened Integers
  import opened Der
  import opened PacketTypes
  import opened PacketCodec
  import opened Framing
  import opened Outgoing
  import opened Asn1

  const MAX_SENDS := 10

  const ACK: byte := 49 // '1'

  type Address = nat

  /**
   * What the wait for an acknowledgement ends with. Of a datagram the loop looks at the first
   * octet of its own buffer, which an empty one leaves as it was; any octet is possible.
   */
  datatype Reply =
    | TimedOut
    | From(sender: Address, first: byte)
    | SocketError // of recvfrom, or of the setsockopt before it: both throw

  datatype Outcome = Acknowledged | GaveUp | Threw

  datatype Transmission = Transmission(to: Address, content: bytes)

  /** Where the next copy goes: recvfrom overwrites the address with the last replier's. */
  function Retarget(to: Address, r: Reply): Address {
    if r.From? then r.sender else to
  }

  /** The address in use after the given replies. */
  function TargetAfter(to: Address, replies: seq<Reply>): Address {
    if |replies| == 0 then to else Retarget(TargetAfter(to, replies[..|replies| - 1]), replies[|replies| - 1])
  }

  /** The n copies sent while the first n - 1 replies come in. */
  function Copies(to: Address, content: bytes, replies: seq<Reply>, n: nat): seq<Transmission>
    requires n <= |replies|
  {
    seq(n, i requires 0 <= i < n => Transmission(TargetAfter(to, replies[..i]), content))
  }

  /** A reply that lets the loop go on: none in time, or a datagram that does not start with '1'. */
  predicate GoesOn(r: Reply) {
    r.TimedOut? || (r.From? && r.first != 49)
  }

  /**
   * How the loop can end after so many sends: acknowledged by the last reply, thrown out by
   * it, or given up after ten, all replies before having let it go on.
   */
  ghost predicate Ends(replies: seq<Reply>, sends: nat, outcome: Outcome) {
    && 1 <= sends <= 10 && sends <= |replies|
    && (forall j :: 0 <= j < sends - 1 ==> GoesOn(replies[j]))
    && match outcome
      case Acknowledged => replies[sends - 1].From? && replies[sends - 1].first == 49
      case Threw => replies[sends - 1].SocketError?
      case GaveUp => sends == 10 && GoesOn(replies[sends - 1])
  }

  /** The replies leave no choice: neither of outcome nor of the number of sends. */
  lemma EndsOneWay(replies: seq<Reply>, m: nat, a: Outcome, n: nat, b: Outcome)
    requires Ends(replies, m, a) && Ends(replies, n, b)
    ensures m == n && a == b
  {
  }

  /** Every copy goes where it should exactly when no other address replies before the last. */
  lemma {:induction false} CopiesReachTarget(to: Address, content: bytes, replies: seq<Reply>, n: nat)
    requires n <= |replies|
    ensures (forall i :: 0 <= i < n ==> Copies(to, content, replies, n)[i].to == to)
      <==> (forall i :: 0 <= i < n - 1 && replies[i].From? ==> replies[i].sender == to)
  {
    var copies := Copies(to, content, replies, n);
    if n > 1 {
      CopiesReachTarget(to, content, replies, n - 1);
      var before := Copies(to, content, replies, n - 1);
      assert forall i :: 0 <= i < n - 1 ==> copies[i] == before[i];
      var last := replies[..n - 1];
      assert last[..n - 2] == replies[..n - 2];
      assert copies[n - 1].to == Retarget(copies[n - 2].to, replies[n - 2]);
    } else if n == 1 {
      assert replies[..0] == [];
    }
  }

  /** Each copy goes to the last replier so far, or where the message was to go. */
  lemma {:induction false} CopyTargets(to: Address, content: bytes, replies: seq<Reply>, n: nat, i: nat)
    requires i < n <= |replies|
    ensures Copies(to, content, replies, n)[i].content == content
    ensures (forall k :: 0 <= k < i ==> !replies[k].From?) ==> Copies(to, content, replies, n)[i].to == to
    ensures forall k :: 0 <= k < i && replies[k].From? && (forall l :: k < l < i ==> !replies[l].From?) ==>
      Copies(to, content, replies, n)[i].to == replies[k].sender
  {
    LastReplier(to, replies[..i]);
  }

  lemma {:induction false} LastReplier(to: Address, replies: seq<Reply>)
    ensures (forall k :: 0 <= k < |replies| ==> !replies[k].From?) ==> TargetAfter(to, replies) == to
    ensures forall k :: 0 <= k < |replies| && replies[k].From? && (forall l :: k < l < |replies| ==> !replies[l].From?) ==>
      TargetAfter(to, replies) == replies[k].sender
  {
    if |replies| > 0 {
      LastReplier(to, replies[..|replies| - 1]);
    }
  }

  class UdpNetworking {
    var autoId: nat
    var transmitted: seq<Transmission>
    var acknowledged: seq<Address> // acknowledgements sent

    constructor ()
      ensures autoId == 0 && transmitted == [] && acknowledged == []
    {
      autoId, transmitted, acknowledged := 0, [], [];
    }

    /** At most ten copies for any pattern of replies, and the only end they allow. */
    method SendMessageTo(to: Address, buffer: bytes, replies: seq<Reply>) returns (outcome: Outcome, ghost sends: nat)
      requires |replies| >= MAX_SENDS
      modifies this`transmitted
      ensures Ends(replies, sends, outcome)
      ensures transmitted == old(transmitted) + Copies(to, buffer, replies, sends)
    {
      var maxResendCount: nat := MAX_SENDS;
      var serverAddress := to;
      sends := 0;
      while maxResendCount > 0
        invariant sends + maxResendCount == MAX_SENDS
        invariant serverAddress == TargetAfter(to, replies[..sends])
        invariant transmitted == old(transmitted) + Copies(to, buffer, replies, sends)
        invariant forall j :: 0 <= j < sends ==> GoesOn(replies[j])
        decreases maxResendCount
      {
        transmitted := transmitted + [Transmission(serverAddress, buffer)];
        assert Copies(to, buffer, replies, sends + 1)
          == Copies(to, buffer, replies, sends) + [Transmission(serverAddress, buffer)];
        var reply := replies[MAX_SENDS - maxResendCount];
        assert replies[..sends + 1][..sends] == replies[..sends];
        sends := sends + 1;
        match reply {
          case SocketError => return Threw, sends;
          case TimedOut =>
            maxResendCount := maxResendCount - 1;
          case From(sender, first) =>
            serverAddress := sender;
            if first == ACK {
              return Acknowledged, sends;
            }
            maxResendCount := maxResendCount - 1;
        }
      }
      outcome := GaveUp;
    }

    /** Assigns an id, encodes, and sends header and body as one datagram. */
    method SendPacketTo(to: Address, packet: Packet, replies: seq<Reply>)
      returns (outcome: Outcome, ghost sends: nat)
      requires |replies| >= MAX_SENDS
      requires packet.id == -1 ==> autoId < TWO_31 - 1
      requires Sendable(Numbered(packet, autoId))
      modifies this`autoId, this`transmitted
      ensures autoId == old(autoId) + if packet.id == -1 then 1 else 0
      ensures packet.payload.File? && |packet.payload.table| == 0 ==>
        outcome == Threw && transmitted == old(transmitted)
      ensures !(packet.payload.File? && |packet.payload.table| == 0) ==>
        var sent := Numbered(packet, old(autoId));
        && Ends(replies, sends, outcome)
        && transmitted == old(transmitted) + Copies(to, FrameOf(sent), replies, sends)
    {
      hide TreeOf, TreeSize, TreeDer, Header, Copies;
      var id := packet.id;
      if id == NO_ID {
        id := autoId;
        autoId := autoId + 1;
      }
      var encoded := Encode(packet.payload, id);
      if encoded.Failure? {
        return Threw, 0;
      }
      var encodedPacket := encoded.value;
      var size := 4 + |encodedPacket|;
      var finalBuffer := new byte[size];
      var networkSize := Header(|encodedPacket|);
      for i := 0 to 4
        modifies finalBuffer
        invariant finalBuffer[..i] == networkSize[..i]
      {
        finalBuffer[i] := networkSize[i];
      }
      for i := 0 to |encodedPacket|
        modifies finalBuffer
        invariant finalBuffer[..4] == networkSize
        invariant finalBuffer[4..4 + i] == encodedPacket[..i]
      {
        finalBuffer[4 + i] := encodedPacket[i];
      }
      assert finalBuffer[..] == finalBuffer[..4] + finalBuffer[4..4 + |encodedPacket|];
      assert finalBuffer[..] == Frame(encodedPacket);
      outcome, sends := SendMessageTo(to, finalBuffer[..], replies);
    }

    /** Deframes and decodes a datagram, and acknowledges it only after that. */
    method ReceivePacketFrom(from: Address, datagram: bytes) returns (r: Result<Packet, CodecError>)
      requires |datagram| >= 4 && |datagram| - 4 >= BigEndian(datagram[..4])
      modifies this`acknowledged
      ensures r == DecodeSpec(Deframed(datagram))
      ensures acknowledged == if r.Success? then old(acknowledged) + [from] else old(acknowledged)
    {
      hide DecodeSpec, BigEndian;
      var derLen := BigEndian(datagram[..4]);
      r := Decode(datagram[4..4 + derLen]);
      if r.Success? {
        acknowledged := acknowledged + [from];
      }
    }
  }

  /** The body of a datagram that holds at least what its header announces. */
  function Deframed(datagram: bytes): bytes
    requires |datagram| >= 4 && |datagram| - 4 >= BigEndian(datagram[..4])
  {
    datagram[4..4 + BigEndian(datagram[..4])]
  }

  /** What a packet's datagram is received as, whatever stands behind what its header announces. */
  lemma DatagramRoundTrip(p: Packet, trailing: bytes)
    requires Fits(p) && !MissesComponent(p.payload)
    ensures var d := FrameOf(p) + trailing;
      && |d| >= 4 && |d| - 4 >= BigEndian(d[..4])
      && DecodeSpec(Deframed(d)) == Success(NormalisePacket(p))
  {
    hide TreeOf, TreeSize, TreeDer, DecodeSpec, Normalise, Frame, BigEndian;
    RoundTrip(p);
    var body := TreeDer(TreeOf(p));
    assert |body| == TreeSize(TreeOf(p));
    TakeFrameOf(body, trailing);
  }
}
