/** What a sender makes of a run of packets: ids, then frame bodies. */
module Outgoing {
  import Wrappers
  import opened Bytes
  import opened Integers
  import opened Der
  import opened PacketTypes
  import opened PacketCodec
  import opened Growth
  import opened Framing
  import opened Sessions

  /** autoId after sending ps: one more for each packet without an id. */
  function AutoAfter(auto: nat, ps: seq<Packet>): (n: nat)
    ensures auto <= n <= auto + |ps|
  {
    if |ps| == 0 then auto
    else
      var n := AutoAfter(auto, ps[..|ps| - 1]);
      if ps[|ps| - 1].id == NO_ID then n + 1 else n
  }

  /** A packet under the id it is sent with. */
  function Numbered(p: Packet, auto: nat): (q: Packet)
    requires p.id == -1 ==> auto < TWO_31
    ensures q.payload == p.payload && q.id == if p.id == -1 then auto else p.id
  {
    if p.id == NO_ID then Packet(auto, p.payload) else p
  }

  /** The packets with the ids they are sent under; autoId must stay within an int. */
  function Assigned(auto: nat, ps: seq<Packet>): (qs: seq<Packet>)
    requires AutoAfter(auto, ps) < TWO_31
    ensures |qs| == |ps|
  {
    if |ps| == 0 then []
    else
      var init, p := ps[..|ps| - 1], ps[|ps| - 1];
      Assigned(auto, init) + [Numbered(p, AutoAfter(auto, init))]
  }

  /** Packets that encode refuses go nowhere, though they may have used up an id. */
  function Encodable(ps: seq<Packet>): (qs: seq<Packet>)
    ensures |qs| <= |ps|
    ensures forall i :: 0 <= i < |qs| ==> !MissesComponent(qs[i].payload)
  {
    if |ps| == 0 then []
    else
      var qs, p := Encodable(ps[..|ps| - 1]), ps[|ps| - 1];
      if MissesComponent(p.payload) then qs else qs + [p]
  }

  function Bodies(ps: seq<Packet>): (bs: seq<bytes>)
    ensures |bs| == |ps|
    ensures forall i :: 0 <= i < |ps| ==> bs[i] == TreeDer(TreeOf(ps[i]))
  {
    seq(|ps|, i requires 0 <= i < |ps| => TreeDer(TreeOf(ps[i])))
  }

  /** The octets one packet puts on the wire: its frame, or nothing. */
  function FrameOf(p: Packet): bytes {
    if MissesComponent(p.payload) then [] else Frame(TreeDer(TreeOf(p)))
  }

  /** The octets a run of packets puts on the wire. */
  function Stream(ps: seq<Packet>): bytes {
    Frames(Bodies(Encodable(ps)))
  }

  function NormaliseAll(ps: seq<Packet>): (qs: seq<Packet>)
    ensures |qs| == |ps|
    ensures forall i :: 0 <= i < |ps| ==> qs[i] == NormalisePacket(ps[i])
  {
    seq(|ps|, i requires 0 <= i < |ps| => NormalisePacket(ps[i]))
  }

  /** Packets a sender may be handed: buffers present, and a length that an int can hold. */
  predicate Sendable(p: Packet) {
    BuffersPresent(p.payload) && Fits(p)
  }

  lemma SendableMeans(p: Packet)
    ensures Sendable(p) <==>
      && (p.payload.Viewport? ==> |p.payload.table| > 0)
      && (p.payload.Universal? ==> |p.payload.blob| > 0)
      && |TreeDer(TreeOf(p))| < 0x8000_0000
  {
    hide TreeOf, TreeSize;
    assert |TreeDer(TreeOf(p))| == TreeSize(TreeOf(p));
  }

  ghost predicate AllSendable(ps: seq<Packet>) {
    forall i :: 0 <= i < |ps| ==> Sendable(ps[i])
  }

  // ---------- ids ----------

  /** Each packet without an id has used up one. */
  lemma {:induction false} AutoAfterCounts(auto: nat, ps: seq<Packet>)
    ensures AutoAfter(auto, ps) == auto + |set i | 0 <= i < |ps| && ps[i].id == -1|
  {
    var without := set i | 0 <= i < |ps| && ps[i].id == -1;
    if |ps| > 0 {
      var init := ps[..|ps| - 1];
      AutoAfterCounts(auto, init);
      var before := set i | 0 <= i < |init| && init[i].id == -1;
      assert without == if ps[|ps| - 1].id == -1 then before + {|ps| - 1} else before;
    }
  }

  lemma {:induction false} AutoAfterConcat(auto: nat, a: seq<Packet>, b: seq<Packet>)
    ensures AutoAfter(auto, a + b) == AutoAfter(AutoAfter(auto, a), b)
  {
    if |b| == 0 {
      assert a + b == a;
    } else {
      AutoAfterConcat(auto, a, b[..|b| - 1]);
      assert (a + b)[..|a + b| - 1] == a + b[..|b| - 1];
    }
  }

  lemma AutoAfterSnoc(auto: nat, ps: seq<Packet>, p: Packet)
    ensures AutoAfter(auto, ps + [p]) == AutoAfter(auto, ps) + if p.id == -1 then 1 else 0
  {
    assert (ps + [p])[..|ps|] == ps;
  }

  lemma {:induction false} AutoAfterMonotone(auto: nat, ps: seq<Packet>, k: nat)
    requires k <= |ps|
    ensures AutoAfter(auto, ps[..k]) <= AutoAfter(auto, ps)
  {
    AutoAfterConcat(auto, ps[..k], ps[k..]);
    assert ps == ps[..k] + ps[k..];
  }

  /** Each packet keeps its payload; its id is its own, or the auto ids handed out before it. */
  lemma {:induction false} AssignedAt(auto: nat, ps: seq<Packet>, k: nat)
    requires AutoAfter(auto, ps) < TWO_31 && k < |ps|
    ensures AutoAfter(auto, ps[..k]) < TWO_31
    ensures Assigned(auto, ps)[k] == Numbered(ps[k], AutoAfter(auto, ps[..k]))
    ensures var q := Assigned(auto, ps)[k];
      && q.payload == ps[k].payload
      && q.id == if ps[k].id == -1 then AutoAfter(auto, ps[..k]) else ps[k].id
  {
    AutoAfterMonotone(auto, ps, k);
    if k < |ps| - 1 {
      AssignedAt(auto, ps[..|ps| - 1], k);
      assert ps[..|ps| - 1][..k] == ps[..k];
    }
  }

  /** Replaced ids are consecutive in sending order, hence all different. */
  lemma AutoIdsConsecutive(auto: nat, ps: seq<Packet>, i: nat, j: nat)
    requires AutoAfter(auto, ps) < TWO_31 && i < j < |ps|
    requires ps[i].id == -1 && ps[j].id == -1
    ensures Assigned(auto, ps)[i].id < Assigned(auto, ps)[j].id
    ensures (forall k :: i < k < j ==> ps[k].id != -1) ==>
              Assigned(auto, ps)[j].id == Assigned(auto, ps)[i].id + 1
  {
    hide AutoAfter, Assigned, Numbered;
    AssignedAt(auto, ps, i);
    AssignedAt(auto, ps, j);
    OneHandedOut(auto, ps, i, j);
    var between := ps[i + 1..j];
    if forall k :: i < k < j ==> ps[k].id != -1 {
      assert forall k :: 0 <= k < |between| ==> between[k].id != -1;
      NoneAssigned(AutoAfter(auto, ps[..i]) + 1, between);
    }
  }

  lemma OneHandedOut(auto: nat, ps: seq<Packet>, i: nat, j: nat)
    requires i < j <= |ps| && ps[i].id == -1
    ensures AutoAfter(auto, ps[..j]) == AutoAfter(AutoAfter(auto, ps[..i]) + 1, ps[i + 1..j])
  {
    hide AutoAfter;
    AutoAfterSnoc(auto, ps[..i], ps[i]);
    assert ps[..i] + [ps[i]] == ps[..i + 1];
    AutoAfterConcat(auto, ps[..i + 1], ps[i + 1..j]);
    assert ps[..i + 1] + ps[i + 1..j] == ps[..j];
  }

  lemma {:induction false} NoneAssigned(auto: nat, ps: seq<Packet>)
    requires forall i :: 0 <= i < |ps| ==> ps[i].id != -1
    ensures AutoAfter(auto, ps) == auto
    ensures auto < TWO_31 ==> Assigned(auto, ps) == ps
  {
    if |ps| > 0 {
      NoneAssigned(auto, ps[..|ps| - 1]);
      assert ps == ps[..|ps| - 1] + [ps[|ps| - 1]];
    }
  }

  // ---------- one packet more ----------

  lemma AssignedSnoc(auto: nat, ps: seq<Packet>, p: Packet)
    requires AutoAfter(auto, ps + [p]) < TWO_31
    ensures AutoAfter(auto, ps) <= AutoAfter(auto, ps + [p])
    ensures AutoAfter(auto, ps + [p]) == AutoAfter(auto, ps) + if p.id == -1 then 1 else 0
    ensures Assigned(auto, ps + [p]) == Assigned(auto, ps) + [Numbered(p, AutoAfter(auto, ps))]
  {
    assert (ps + [p])[..|ps|] == ps;
  }

  lemma EncodableSnoc(ps: seq<Packet>, p: Packet)
    ensures Encodable(ps + [p]) == if MissesComponent(p.payload) then Encodable(ps) else Encodable(ps) + [p]
  {
    assert (ps + [p])[..|ps|] == ps;
  }

  lemma BodiesSnoc(ps: seq<Packet>, p: Packet)
    ensures Bodies(ps + [p]) == Bodies(ps) + [TreeDer(TreeOf(p))]
  {
  }

  lemma StreamSnoc(ps: seq<Packet>, p: Packet)
    ensures Stream(ps + [p]) == Stream(ps) + FrameOf(p)
  {
    hide TreeOf, TreeDer, Frame, Frames, Encodable, MissesComponent;
    EncodableSnoc(ps, p);
    BodiesSnoc(Encodable(ps), p);
    FramesSnoc(Bodies(Encodable(ps)), TreeDer(TreeOf(p)));
  }

  /** The frames of sendable packets fit their headers. */
  lemma BodiesFitHeader(ps: seq<Packet>)
    requires AllSendable(ps)
    ensures FitHeader(Bodies(ps))
  {
    hide TreeOf, TreeSize, TreeDer;
    forall i | 0 <= i < |ps| ensures |Bodies(ps)[i]| < TWO_32 {
      assert Sendable(ps[i]);
      assert |TreeDer(TreeOf(ps[i]))| == TreeSize(TreeOf(ps[i]));
    }
  }

  // ---------- after the first hop ----------

  /** A frame of a sendable packet is delivered as the normalised packet. */
  lemma FrameIsDelivered(p: Packet)
    requires Sendable(p) && !MissesComponent(p.payload)
    ensures Returned(Wrappers.Some(TreeDer(TreeOf(p)))) == NormalisePacket(p)
    ensures NormalisePacket(p).id != -1
  {
    hide TreeOf, TreeSize, TreeDer, DecodeSpec, Normalise;
    RoundTrip(p);
    SentinelIsUnambiguous(p.id);
    assert EncodeSpec(p).value == TreeDer(TreeOf(p));
  }

  /**
   * A received packet keeps its id and components and changes no more. It can be sent again
   * exactly when the original was short enough to bear an octet more for each lost sign.
   */
  lemma SendableAfterHop(p: Packet)
    requires Sendable(p) && !MissesComponent(p.payload)
    ensures var q := NormalisePacket(p);
      && BuffersPresent(q.payload) && !MissesComponent(q.payload)
      && q.id != -1 && NormalisePacket(q) == q
      && (Sendable(q) <==> TreeSize(TreeOf(p)) + LostSigns(p) < MAX_SIZE)
  {
    hide TreeOf, TreeSize, Normalise, LostSigns;
    NormaliseKeepsComponents(p.payload);
    NormaliseIdempotent(p);
    SentinelIsUnambiguous(p.id);
    FitsAfterHop(p);
  }

  /** The -1 in this packet arrives as 255, an octet longer: it can be sent, but not sent on. */
  lemma LongestPacketStops(blob: bytes)
    requires |blob| == 0x7FFF_FFFF - 30
    ensures var p := Packet(0, Universal(-1, blob));
      Sendable(p) && !MissesComponent(p.payload) && !Sendable(NormalisePacket(p))
  {
    hide TreeSize, TreeOf;
    ContentLength(-1);
    BlobPacketSize(-1, blob);
    SendableAfterHop(Packet(0, Universal(-1, blob)));
  }
}
