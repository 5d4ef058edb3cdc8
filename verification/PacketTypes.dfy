/** The packets of packet_types.h and tdfs_packet_types.h, and what survives a trip. */
module PacketTypes {
  import opened Bytes
  import opened Integers

  /** Strings are octets; an Arrow table is its serialised form. */
  datatype Payload =
    | Standard(payload: bytes)
    | File(filePath: bytes, start: int32, end: int32, table: bytes)
    | ViewportRequest(xStart: int32, xEnd: int32, yStart: int32, yEnd: int32)
    | Viewport(xStart: int32, xEnd: int32, yStart: int32, yEnd: int32, table: bytes)
    | TqlQuery(query: bytes)
    | Error(code: int32, message: bytes)
    | Universal(kind: int32, blob: bytes)
    | Ls(directory: bytes)
    | LsSolution(content: seq<bytes>)

  datatype Packet = Packet(id: int32, payload: Payload)

  /** Id -1 marks the absence of a packet; it is also what senders replace by an own id. */
  const NO_ID: int32 := -1

  const DEFAULT_PACKET := Packet(NO_ID, Standard([]))

  /** A packet, and the peer it goes to or comes from. */
  datatype Addressed<A> = Addressed(peer: A, packet: Packet)

  function PacketsOf<A>(ts: seq<Addressed<A>>): (ps: seq<Packet>)
    ensures |ps| == |ts| && forall i :: 0 <= i < |ts| ==> ps[i] == ts[i].packet
  {
    seq(|ts|, i requires 0 <= i < |ts| => ts[i].packet)
  }

  /** A C string ends at its first NUL octet. */
  function StrLen(s: bytes): (n: nat)
    ensures n <= |s|
    ensures forall i :: 0 <= i < n ==> s[i] != 0
    ensures n < |s| ==> s[n] == 0
  {
    if |s| == 0 || s[0] == 0 then 0 else 1 + StrLen(s[1..])
  }

  function CutNul(s: bytes): bytes {
    s[..StrLen(s)]
  }

  /**
   * A payload after one trip: ints lose their sign extension and strings end at their
   * first NUL, but buffers and the items of a directory listing arrive whole.
   */
  function Normalise(p: Payload): Payload {
    match p
    case Standard(payload) => Standard(CutNul(payload))
    case File(filePath, start, end, table) =>
      File(CutNul(filePath), NormInt(start), NormInt(end), table)
    case ViewportRequest(xStart, xEnd, yStart, yEnd) =>
      ViewportRequest(NormInt(xStart), NormInt(xEnd), NormInt(yStart), NormInt(yEnd))
    case Viewport(xStart, xEnd, yStart, yEnd, table) =>
      Viewport(NormInt(xStart), NormInt(xEnd), NormInt(yStart), NormInt(yEnd), table)
    case TqlQuery(query) => TqlQuery(CutNul(query))
    case Error(code, message) => Error(NormInt(code), CutNul(message))
    case Universal(kind, blob) => Universal(NormInt(kind), blob)
    case Ls(directory) => Ls(CutNul(directory))
    case LsSolution(content) => LsSolution(content)
  }

  function NormalisePacket(p: Packet): Packet {
    Packet(NormInt(p.id), Normalise(p.payload))
  }

  predicate Survives(v: int32) {
    v >= 0 || v < -0x80_0000
  }

  /** The payloads that arrive unchanged. */
  predicate ArrivesUnchanged(p: Payload) {
    match p
    case Standard(payload) => 0 !in payload
    case File(filePath, start, end, _) => 0 !in filePath && Survives(start) && Survives(end)
    case ViewportRequest(xStart, xEnd, yStart, yEnd) =>
      Survives(xStart) && Survives(xEnd) && Survives(yStart) && Survives(yEnd)
    case Viewport(xStart, xEnd, yStart, yEnd, _) =>
      Survives(xStart) && Survives(xEnd) && Survives(yStart) && Survives(yEnd)
    case TqlQuery(query) => 0 !in query
    case Error(code, message) => Survives(code) && 0 !in message
    case Universal(kind, _) => Survives(kind)
    case Ls(directory) => 0 !in directory
    case LsSolution(_) => true
  }

  lemma CutNulFixpoint(s: bytes)
    ensures CutNul(s) == s <==> 0 !in s
    ensures CutNul(CutNul(s)) == CutNul(s)
  {
    assert StrLen(s) == |s| ==> 0 !in s;
    assert StrLen(s) < |s| ==> s[StrLen(s)] in s;
  }

  lemma NormaliseFixpoint(p: Payload)
    ensures Normalise(p) == p <==> ArrivesUnchanged(p)
  {
    forall v: int32 ensures NormInt(v) == v <==> Survives(v) { IntegerPathDomain(v); }
    forall s: bytes ensures CutNul(s) == s <==> 0 !in s { CutNulFixpoint(s); }
  }

  lemma NormaliseIdempotent(p: Packet)
    ensures NormalisePacket(NormalisePacket(p)) == NormalisePacket(p)
  {
    forall v: int32 ensures NormInt(NormInt(v)) == NormInt(v) { NormIntIdempotent(v); }
    forall s: bytes ensures CutNul(CutNul(s)) == CutNul(s) { CutNulFixpoint(s); }
  }
}
