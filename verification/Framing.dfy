/** Length-prefixed frames, and the greedy parse of a byte stream into frames. */
module Framing {
  import opened Wrappers
  import opened Bytes
  import opened Integers

  /** The four octets htonl leaves in memory. */
  function Header(size: nat): (h: bytes)
    ensures |h| == 4
  {
    Octets(size, 4)
  }

  /** Network order, most significant octet first, and exact up to 32 bits. */
  lemma HeaderIsNetworkOrder(size: nat)
    requires size < TWO_32
    ensures Header(size) == [size / 0x100_0000, size / 0x1_0000 % 256, size / 0x100 % 256, size % 256]
    ensures BigEndian(Header(size)) == size
  {
    SmallPowers();
    OctetsThenBigEndian(size, 4);
    assert Octets(size / 0x100_0000, 1) == [size / 0x100_0000];
    assert Octets(size / 0x1_0000, 2) == [size / 0x100_0000, size / 0x1_0000 % 256];
    assert Octets(size / 0x100, 3) == [size / 0x100_0000, size / 0x1_0000 % 256, size / 0x100 % 256];
  }

  function Frame(body: bytes): bytes {
    Header(|body|) + body
  }

  function Frames(bodies: seq<bytes>): bytes {
    if |bodies| == 0 then [] else Frame(bodies[0]) + Frames(bodies[1..])
  }

  ghost predicate FitHeader(bodies: seq<bytes>) {
    forall i :: 0 <= i < |bodies| ==> |bodies[i]| < TWO_32
  }

  /** The first complete frame of a buffer: its body, and the buffer without it. */
  function TakeFrame(buffer: bytes): (r: Option<(bytes, bytes)>)
    ensures r.Some? ==> |r.value.1| < |buffer|
  {
    if |buffer| < 4 then None
    else
      var derLen := BigEndian(buffer[..4]);
      if |buffer| < 4 + derLen then None
      else Some((buffer[4..4 + derLen], buffer[4 + derLen..]))
  }

  datatype Parsed = Parsed(bodies: seq<bytes>, rest: bytes)

  /** All complete frames of a buffer, and the incomplete remainder. */
  function Greedy(buffer: bytes): Parsed
    decreases |buffer|
  {
    match TakeFrame(buffer)
    case None => Parsed([], buffer)
    case Some((body, rest)) =>
      var tail := Greedy(rest);
      Parsed([body] + tail.bodies, tail.rest)
  }

  lemma TakeFrameOf(body: bytes, rest: bytes)
    requires |body| < TWO_32
    ensures TakeFrame(Frame(body) + rest) == Some((body, rest))
  {
    var buffer := Frame(body) + rest;
    SmallPowers();
    OctetsThenBigEndian(|body|, 4);
    assert buffer[..4] == Header(|body|);
    assert buffer[4..4 + |body|] == body;
    assert buffer[4 + |body|..] == rest;
  }

  lemma TakeFrameIs(buffer: bytes)
    requires TakeFrame(buffer).Some?
    ensures var (body, rest) := TakeFrame(buffer).value;
      |body| < TWO_32 && buffer == Frame(body) + rest
  {
    var (body, rest) := TakeFrame(buffer).value;
    SmallPowers();
    BigEndianThenOctets(buffer[..4]);
    assert buffer == buffer[..4] + body + rest;
  }

  lemma TakeFrameExtends(buffer: bytes, more: bytes)
    requires TakeFrame(buffer).Some?
    ensures var (body, rest) := TakeFrame(buffer).value;
      TakeFrame(buffer + more) == Some((body, rest + more))
  {
    hide TakeFrame, Frame;
    TakeFrameIs(buffer);
    var (body, rest) := TakeFrame(buffer).value;
    TakeFrameOf(body, rest + more);
    assert buffer + more == Frame(body) + (rest + more);
  }

  lemma {:induction false} FramesConcat(a: seq<bytes>, b: seq<bytes>)
    ensures Frames(a + b) == Frames(a) + Frames(b)
  {
    hide Frame;
    if |a| == 0 {
      assert a + b == b;
    } else {
      FramesConcat(a[1..], b);
      assert (a + b)[1..] == a[1..] + b;
    }
  }

  lemma FramesSnoc(a: seq<bytes>, body: bytes)
    ensures Frames(a + [body]) == Frames(a) + Frame(body)
  {
    hide Frame;
    FramesConcat(a, [body]);
    assert Frames([body]) == Frame(body) + Frames([]) == Frame(body);
  }

  lemma NoFrames()
    ensures Frames([]) == []
  {
  }

  lemma FramesCons(body: bytes, bodies: seq<bytes>, rest: bytes)
    ensures Frames([body] + bodies) + rest == Frame(body) + (Frames(bodies) + rest)
  {
    hide Frame;
    assert ([body] + bodies)[1..] == bodies;
  }

  /** Nothing is lost and nothing complete is left over. */
  lemma {:induction false} GreedyConserves(buffer: bytes)
    ensures var p := Greedy(buffer);
      Frames(p.bodies) + p.rest == buffer && FitHeader(p.bodies) && TakeFrame(p.rest).None?
    decreases |buffer|
  {
    hide TakeFrame, Frame, Frames;
    if TakeFrame(buffer).Some? {
      TakeFrameIs(buffer);
      var (body, rest) := TakeFrame(buffer).value;
      GreedyConserves(rest);
      FramesCons(body, Greedy(rest).bodies, Greedy(rest).rest);
    } else {
      assert Frames([]) == [] by { NoFrames(); }
    }
  }

  /** Parsing resumes behind any run of whole frames. */
  lemma {:induction false} GreedyAfterFrames(bodies: seq<bytes>, rest: bytes)
    requires FitHeader(bodies)
    ensures Greedy(Frames(bodies) + rest) == Parsed(bodies + Greedy(rest).bodies, Greedy(rest).rest)
  {
    hide TakeFrame, Frame, Frames;
    if |bodies| == 0 {
      NoFrames();
      assert bodies + Greedy(rest).bodies == Greedy(rest).bodies && [] + rest == rest;
    } else {
      var behind := Frames(bodies[1..]) + rest;
      TakeFrameOf(bodies[0], behind);
      GreedyAfterFrames(bodies[1..], rest);
      assert bodies == [bodies[0]] + bodies[1..];
      FramesCons(bodies[0], bodies[1..], rest);
      assert [bodies[0]] + (bodies[1..] + Greedy(rest).bodies) == bodies + Greedy(rest).bodies;
    }
  }

  lemma GreedyStartsWith(buffer: bytes)
    requires TakeFrame(buffer).Some?
    ensures Greedy(buffer).bodies != [] && Greedy(buffer).bodies[0] == TakeFrame(buffer).value.0
  {
    hide TakeFrame;
  }

  /** More bytes never change the frames already complete. */
  lemma GreedyExtends(a: bytes, more: bytes)
    ensures var p, q := Greedy(a), Greedy(Greedy(a).rest + more);
      Greedy(a + more) == Parsed(p.bodies + q.bodies, q.rest)
  {
    hide TakeFrame, Frame, Greedy, Frames;
    var p := Greedy(a);
    GreedyConserves(a);
    GreedyAfterFrames(p.bodies, p.rest + more);
    assert a + more == Frames(p.bodies) + (p.rest + more);
  }

  /** A byte stream determines its frames: the greedy parse is the only split there is. */
  lemma GreedyIsTheOnlyParse(bodies: seq<bytes>, rest: bytes)
    requires FitHeader(bodies) && TakeFrame(rest).None?
    ensures Greedy(Frames(bodies) + rest) == Parsed(bodies, rest)
  {
    hide TakeFrame, Frame;
    GreedyAfterFrames(bodies, rest);
  }

  lemma GreedyOfFrames(bodies: seq<bytes>)
    requires FitHeader(bodies)
    ensures Greedy(Frames(bodies)) == Parsed(bodies, [])
  {
    hide Frame;
    GreedyIsTheOnlyParse(bodies, []);
    assert Frames(bodies) + [] == Frames(bodies);
  }
}
