/**
 * What reaches the wire when send accepts as much as it pleases. `room(k)` is what the k-th
 * send call finds: at most zero and it fails, else it accepts that many of the octets offered.
 */
module Sending {
  import opened Bytes
  import opened Integers
  import opened Der
  import opened PacketTypes
  import opened PacketCodec
  import opened Framing
  import opened Outgoing

  /** The octets that `calls` consecutive send calls have room for. */
  function Total(room: nat -> int, first: nat, calls: nat): int
    decreases calls
  {
    if calls == 0 then 0 else room(first) + Total(room, first + 1, calls - 1)
  }

  ghost predicate NoneFails(room: nat -> int, first: nat, calls: nat) {
    forall k :: first <= k < first + calls ==> room(k) > 0
  }

  datatype Progress = Progress(written: nat, calls: nat)

  /** One sendBytes call over n octets, beginning with send call number `first`. */
  function Push(n: nat, room: nat -> int, first: nat): (p: Progress)
    ensures p.written <= n
    decreases n
  {
    if n == 0 then Progress(0, 0)
    else if room(first) <= 0 then Progress(0, 1)
    else if room(first) >= n then Progress(n, 1)
    else
      var rest := Push(n - room(first), room, first + 1);
      Progress(room(first) + rest.written, 1 + rest.calls)
  }

  /**
   * Send calls go on until there was room for everything, or one fails; what is written then
   * is what the calls before it accepted. It is everything exactly when none has failed.
   */
  lemma {:induction false} WrittenUntilFailure(n: nat, room: nat -> int, first: nat)
    ensures var p := Push(n, room, first);
      && (p.written == n <==> NoneFails(room, first, p.calls))
      && (p.calls > 0 ==> NoneFails(room, first, p.calls - 1) && Total(room, first, p.calls - 1) < n)
      && (p.written == n ==> Total(room, first, p.calls) >= n)
      && (p.written < n ==>
            p.calls > 0 && room(first + p.calls - 1) <= 0 && p.written == Total(room, first, p.calls - 1))
    decreases n
  {
    if 0 < room(first) < n {
      WrittenUntilFailure(n - room(first), room, first + 1);
    }
  }

  /** What the next send call leaves to the ones behind it. */
  lemma PushOnce(n: nat, room: nat -> int, first: nat)
    ensures var accepted := if room(first) < n then room(first) else n;
      Push(n, room, first) ==
        if n == 0 then Progress(0, 0)
        else if accepted <= 0 then Progress(0, 1)
        else
          var rest := Push(n - accepted, room, first + 1);
          Progress(accepted + rest.written, 1 + rest.calls)
  {
  }

  /** A sendMessage call: the code returned, the octets it put on the wire, its send calls. */
  datatype Attempt = Attempt(code: int, octets: bytes, calls: nat)

  /** Header, then body: the second goes out whatever became of the first. */
  function SendSpec(p: Packet, room: nat -> int, first: nat): Attempt {
    if MissesComponent(p.payload) then Attempt(-1, [], 0)
    else
      var body := TreeDer(TreeOf(p));
      var head := Push(4, room, first);
      var tail := Push(|body|, room, first + head.calls);
      Attempt(0, Header(|body|)[..head.written] + body[..tail.written], head.calls + tail.calls)
  }

  datatype Sent = Sent(octets: bytes, calls: nat)

  /** A run of packets, one sendMessage call each. */
  function SendAll(ps: seq<Packet>, room: nat -> int, first: nat): Sent {
    if |ps| == 0 then Sent([], 0)
    else
      var before := SendAll(ps[..|ps| - 1], room, first);
      var last := SendSpec(ps[|ps| - 1], room, first + before.calls);
      Sent(before.octets + last.octets, before.calls + last.calls)
  }

  lemma NoneFailsConcat(room: nat -> int, first: nat, a: nat, b: nat)
    ensures NoneFails(room, first, a + b) <==> NoneFails(room, first, a) && NoneFails(room, first + a, b)
  {
    if NoneFails(room, first, a + b) {
      assert forall k :: first + a <= k < first + a + b ==> room(k) > 0;
    }
  }

  /** Two prefixes, one behind the other, make up the whole only if both are whole. */
  lemma BothWhole(a: bytes, b: bytes, i: nat, j: nat)
    requires i <= |a| && j <= |b|
    ensures a[..i] + b[..j] == a + b <==> i == |a| && j == |b|
    ensures |a[..i] + b[..j]| <= |a + b|
    ensures |a[..i] + b[..j]| == |a + b| <==> i == |a| && j == |b|
  {
    if i == |a| && j == |b| {
      assert a[..i] == a && b[..j] == b;
    } else {
      assert |a[..i] + b[..j]| < |a + b|;
    }
  }

  /** The frame is whole on the wire exactly when no send call of the two sendBytes failed. */
  lemma WholeFrame(p: Packet, room: nat -> int, first: nat)
    ensures var sent := SendSpec(p, room, first);
      && |sent.octets| <= |FrameOf(p)|
      && (sent.octets == FrameOf(p) <==> NoneFails(room, first, sent.calls))
      && (|sent.octets| == |FrameOf(p)| <==> NoneFails(room, first, sent.calls))
  {
    hide TreeOf, TreeDer, MissesComponent, Push;
    if !MissesComponent(p.payload) {
      var body := TreeDer(TreeOf(p));
      var head := Push(4, room, first);
      var tail := Push(|body|, room, first + head.calls);
      WrittenUntilFailure(4, room, first);
      WrittenUntilFailure(|body|, room, first + head.calls);
      NoneFailsConcat(room, first, head.calls, tail.calls);
      BothWhole(Header(|body|), body, head.written, tail.written);
    }
  }

  /** The wire carries all frames, concatenated, exactly when no send call of the run failed. */
  lemma {:induction false} AllFramesWhole(ps: seq<Packet>, room: nat -> int, first: nat)
    ensures var sent := SendAll(ps, room, first);
      && |sent.octets| <= |Stream(ps)|
      && (sent.octets == Stream(ps) <==> NoneFails(room, first, sent.calls))
      && (|sent.octets| == |Stream(ps)| <==> NoneFails(room, first, sent.calls))
  {
    hide SendSpec, FrameOf, Stream, NoneFails;
    if |ps| == 0 {
      NothingSent(room, first);
      assert ps == [];
    } else {
      var init, p := ps[..|ps| - 1], ps[|ps| - 1];
      assert ps == init + [p];
      AllFramesWhole(init, room, first);
      var before := SendAll(init, room, first);
      WholeFrame(p, room, first + before.calls);
      var last := SendSpec(p, room, first + before.calls);
      NoneFailsConcat(room, first, before.calls, last.calls);
      StreamSnoc(init, p);
    }
  }

  lemma NothingSent(room: nat -> int, first: nat)
    ensures NoneFails(room, first, 0) && Stream([]) == []
  {
  }

  lemma SendAllSnoc(ps: seq<Packet>, p: Packet, room: nat -> int, first: nat)
    ensures var before := SendAll(ps, room, first);
      var last := SendSpec(p, room, first + before.calls);
      SendAll(ps + [p], room, first) == Sent(before.octets + last.octets, before.calls + last.calls)
  {
    hide *;
    var longer := ps + [p];
    assert longer[..|longer| - 1] == ps && longer[|longer| - 1] == p;
    SendAllStep(longer, room, first);
  }

  lemma SendAllStep(ps: seq<Packet>, room: nat -> int, first: nat)
    requires |ps| > 0
    ensures var before := SendAll(ps[..|ps| - 1], room, first);
      var last := SendSpec(ps[|ps| - 1], room, first + before.calls);
      SendAll(ps, room, first) == Sent(before.octets + last.octets, before.calls + last.calls)
  {
    hide SendSpec;
  }

  // ---------- what a failed send call leaves behind ----------

  lemma BodyStarts(p: Packet)
    ensures var body := TreeDer(TreeOf(p)); |body| >= 4 && body[0] == 0x30
  {
    hide ValuesDer, ValuesSize, Schema, LengthOctets;
    var t := TreeOf(p);
    ContentDenotes(p.id);
    assert |Tlv(TAG_INTEGER, t.id)| >= 2;
  }

  /** Header accepted, body refused: the call still returns 0, with a broken frame on the wire. */
  lemma RefusedBodyGoesUnnoticed(p: Packet, room: nat -> int, first: nat)
    requires !MissesComponent(p.payload)
    requires room(first) == 4 && room(first + 1) == -1
    ensures SendSpec(p, room, first) == Attempt(0, Header(|TreeDer(TreeOf(p))|), 2)
    ensures SendSpec(p, room, first).octets != FrameOf(p)
  {
    BodyStarts(p);
    hide TreeOf, TreeDer, MissesComponent;
    var body := TreeDer(TreeOf(p));
    assert Push(4, room, first) == Progress(4, 1);
    assert Push(|body|, room, first + 1) == Progress(0, 1);
    assert Header(|body|)[..4] + body[..0] == Header(|body|);
    WholeFrame(p, room, first);
    assert room(first + 1) <= 0;
  }

  /**
   * Header refused, body accepted: again 0, and behind the frames sent before, the receiver
   * reads the body's first octets as a length of at least 0x3000_0000. Whatever is sent next,
   * no frame is complete any more until that many octets have followed.
   */
  lemma LostHeaderSilences(bodies: seq<bytes>, p: Packet, room: nat -> int, first: nat, more: bytes)
    requires FitHeader(bodies)
    requires !MissesComponent(p.payload)
    requires room(first) == -1 && room(first + 1) >= |TreeDer(TreeOf(p))|
    requires |TreeDer(TreeOf(p)) + more| < 4 + 0x3000_0000
    ensures SendSpec(p, room, first) == Attempt(0, TreeDer(TreeOf(p)), 2)
    ensures Greedy(Frames(bodies) + (SendSpec(p, room, first).octets + more)).bodies == bodies
  {
    BodyStarts(p);
    hide TreeOf, TreeDer, MissesComponent;
    var body := TreeDer(TreeOf(p));
    assert Push(4, room, first) == Progress(0, 1);
    assert Push(|body|, room, first + 1) == Progress(|body|, 1);
    assert Header(|body|)[..0] + body[..|body|] == body;
    LongLength((body + more)[..4]);
    assert TakeFrame(body + more).None?;
    GreedyIsTheOnlyParse(bodies, body + more);
  }

  lemma LongLength(header: bytes)
    requires |header| == 4 && header[0] == 0x30
    ensures BigEndian(header) >= 0x3000_0000
  {
    var a, b := header[..3], header[..2];
    assert a[..2] == b && b[..1] == [0x30] && [0x30][..0] == [];
    assert BigEndian([0x30]) == 0x30;
    assert BigEndian(b) == BigEndian([0x30]) * 256 + b[1];
    assert BigEndian(a) == BigEndian(b) * 256 + a[2];
  }
}
