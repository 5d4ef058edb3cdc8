/** encode and decode: packets to DER and back through libtasn1's tree of named values. */
module PacketCodec {
  import opened Wrappers
  import opened Bytes
  import opened Integers
  import opened Der
  import opened PacketTypes

  datatype CodecError = EncodingFailed | DecodingFailed

  // ---------- specification ----------

  function AltOf(p: Payload): Alternative {
    match p
    case Standard(_) => StandardAlt
    case File(_, _, _, _) => FileAlt
    case ViewportRequest(_, _, _, _) => ViewportRequestAlt
    case Viewport(_, _, _, _, _) => ViewportAlt
    case TqlQuery(_) => TqlQueryAlt
    case Error(_, _) => ErrorAlt
    case Universal(_, _) => UniversalAlt
    case Ls(_) => LsAlt
    case LsSolution(_) => LsSolutionAlt
  }

  function IntValue(v: int32): Value {
    Primitive(IntContent(v))
  }

  function StringValue(s: bytes): Value {
    Primitive(CutNul(s))
  }

  /** The components of a payload, in schema order. */
  function Values(p: Payload): seq<Value> {
    match p
    case Standard(payload) => [StringValue(payload)]
    case File(filePath, start, end, table) =>
      [StringValue(filePath), IntValue(start), IntValue(end), Primitive(table)]
    case ViewportRequest(xStart, xEnd, yStart, yEnd) =>
      [IntValue(xStart), IntValue(xEnd), IntValue(yStart), IntValue(yEnd)]
    case Viewport(xStart, xEnd, yStart, yEnd, table) =>
      [IntValue(xStart), IntValue(xEnd), IntValue(yStart), IntValue(yEnd), Primitive(table)]
    case TqlQuery(query) => [StringValue(query)]
    case Error(code, message) => [IntValue(code), StringValue(message)]
    case Universal(kind, blob) => [IntValue(kind), Primitive(blob)]
    case Ls(directory) => [StringValue(directory)]
    case LsSolution(content) => [Items(content)]
  }

  function TreeOf(p: Packet): (t: Tree)
    ensures WellTyped(t)
  {
    ContentDenotes(p.id);
    ValuesConform(p.payload);
    Tree(IntContent(p.id), AltOf(p.payload), Values(p.payload))
  }

  lemma ValuesConform(p: Payload)
    ensures AllConform(Schema(AltOf(p)), Values(p))
  {
    forall v: int ensures Minimal(IntContent(v)) { ContentDenotes(v); }
  }

  /** A zero length makes libtasn1 measure a C string instead; callers must pass octets. */
  predicate BuffersPresent(p: Payload) {
    && (p.Viewport? ==> p.table != [])
    && (p.Universal? ==> p.blob != [])
  }

  /** The DER length fits the `int` that counts it. */
  predicate Fits(p: Packet) {
    TreeSize(TreeOf(p)) < MAX_SIZE
  }

  /** An empty file table is never written, so the mandatory component is missing. */
  predicate MissesComponent(p: Payload) {
    p.File? && p.table == []
  }

  function EncodeSpec(p: Packet): Result<bytes, CodecError> {
    if MissesComponent(p.payload) then Failure(EncodingFailed) else Success(TreeDer(TreeOf(p)))
  }

  function PayloadOf(alt: Alternative, vs: seq<Value>): Payload
    requires AllConform(Schema(alt), vs)
  {
    match alt
    case StandardAlt => Standard(vs[0].content)
    case FileAlt =>
      File(vs[0].content, ReadInt(vs[1].content), ReadInt(vs[2].content), vs[3].content)
    case ViewportRequestAlt =>
      ViewportRequest(ReadInt(vs[0].content), ReadInt(vs[1].content),
                      ReadInt(vs[2].content), ReadInt(vs[3].content))
    case ViewportAlt =>
      Viewport(ReadInt(vs[0].content), ReadInt(vs[1].content),
               ReadInt(vs[2].content), ReadInt(vs[3].content), vs[4].content)
    case TqlQueryAlt => TqlQuery(vs[0].content)
    case ErrorAlt => Error(ReadInt(vs[0].content), vs[1].content)
    case UniversalAlt => Universal(ReadInt(vs[0].content), vs[1].content)
    case LsAlt => Ls(vs[0].content)
    case LsSolutionAlt => LsSolution(vs[0].items)
  }

  function DecodeSpec(der: bytes): Result<Packet, CodecError> {
    match ParseTree(der)
    case None => Failure(DecodingFailed)
    case Some(t) => Success(Packet(ReadInt(t.id), PayloadOf(t.alt, t.values)))
  }

  // ---------- the octets themselves ----------

  /** The place of a payload's type in the program's variant. */
  function VariantIndex(p: Payload): (n: nat)
    ensures n < 9
  {
    if p.Standard? then 0 else if p.File? then 1 else if p.ViewportRequest? then 2
    else if p.Viewport? then 3 else if p.TqlQuery? then 4 else if p.Error? then 5
    else if p.Universal? then 6 else if p.Ls? then 7 else 8
  }

  function Flat(parts: seq<bytes>): bytes {
    if |parts| == 0 then [] else parts[0] + Flat(parts[1..])
  }

  function IntElement(v: int32): bytes {
    Tlv(0x02, IntContent(v))
  }

  function TextElement(s: bytes): bytes {
    Tlv(0x04, s[..StrLen(s)])
  }

  function BlobElement(buffer: bytes): bytes {
    Tlv(0x04, buffer)
  }

  function ItemElements(items: seq<bytes>): (es: seq<bytes>)
    ensures |es| == |items|
  {
    seq(|items|, i requires 0 <= i < |items| => Tlv(0x0C, items[i]))
  }

  /** What stands inside a payload's sequence, element by element. */
  function Elements(p: Payload): seq<bytes> {
    match p
    case Standard(payload) => [TextElement(payload)]
    case File(filePath, start, end, table) =>
      [TextElement(filePath), IntElement(start), IntElement(end), BlobElement(table)]
    case ViewportRequest(xStart, xEnd, yStart, yEnd) =>
      [IntElement(xStart), IntElement(xEnd), IntElement(yStart), IntElement(yEnd)]
    case Viewport(xStart, xEnd, yStart, yEnd, table) =>
      [IntElement(xStart), IntElement(xEnd), IntElement(yStart), IntElement(yEnd), BlobElement(table)]
    case TqlQuery(query) => [TextElement(query)]
    case Error(code, message) => [IntElement(code), TextElement(message)]
    case Universal(kind, blob) => [IntElement(kind), BlobElement(blob)]
    case Ls(directory) => [TextElement(directory)]
    case LsSolution(content) => [Tlv(0x30, Flat(ItemElements(content)))]
  }

  lemma {:induction false} ItemsAreFlat(items: seq<bytes>)
    ensures ItemsDer(items) == Flat(ItemElements(items))
  {
    hide Tlv;
    if |items| > 0 {
      ItemsAreFlat(items[1..]);
      assert ItemElements(items)[1..] == ItemElements(items[1..]);
    }
  }

  lemma {:induction false} ValuesAreFlat(cs: seq<Component>, vs: seq<Value>, es: seq<bytes>)
    requires AllConform(cs, vs) && |es| == |vs|
    requires forall i :: 0 <= i < |vs| ==> es[i] == ValueDer(cs[i].kind, vs[i])
    ensures ValuesDer(cs, vs) == Flat(es)
  {
    hide ValueDer;
    if |vs| > 0 {
      ValuesAreFlat(cs[1..], vs[1..], es[1..]);
    }
  }

  lemma ElementsAreValues(p: Payload)
    ensures AllConform(Schema(AltOf(p)), Values(p))
    ensures ValuesDer(Schema(AltOf(p)), Values(p)) == Flat(Elements(p))
  {
    hide Tlv, IntContent, StrLen, ItemsDer, Flat;
    ValuesConform(p);
    if p.LsSolution? {
      ItemsAreFlat(p.content);
    }
    ValuesAreFlat(Schema(AltOf(p)), Values(p), Elements(p));
  }

  /**
   * Every packet, octet by octet: a sequence of the id and, under the explicit tag that is the
   * payload's place in the variant, the sequence of the payload's elements in schema order.
   */
  lemma WireFormat(p: Packet)
    ensures TreeDer(TreeOf(p))
      == Tlv(0x30, IntElement(p.id) + Tlv(0xA0 + VariantIndex(p.payload), Tlv(0x30, Flat(Elements(p.payload)))))
  {
    hide Tlv, ValuesDer, IntContent, Flat, Elements, Values, Schema;
    ElementsAreValues(p.payload);
    assert AltTag(AltOf(p.payload)) == 0xA0 + VariantIndex(p.payload);
  }

  // ---------- theorems ----------

  lemma PayloadRoundTrip(p: Payload)
    requires AllConform(Schema(AltOf(p)), Values(p))
    ensures PayloadOf(AltOf(p), Values(p)) == Normalise(p)
  {
    match p
    case Standard(_) =>
    case File(_, _, _, _) =>
    case ViewportRequest(_, _, _, _) =>
    case Viewport(_, _, _, _, _) =>
    case TqlQuery(_) =>
    case Error(_, _) =>
    case Universal(_, _) =>
    case Ls(_) =>
    case LsSolution(_) =>
  }

  /** Encoding fails on a file without a table, and on nothing else. */
  lemma EncodeFails(p: Packet)
    ensures EncodeSpec(p).Failure? <==> p.payload.File? && |p.payload.table| == 0
    ensures EncodeSpec(p).Success? ==> EncodeSpec(p).value == TreeDer(TreeOf(p))
  {
    hide TreeOf, TreeDer;
  }

  /** Decoding fails on octets that are no encoding, and on nothing else. */
  lemma DecodeFails(bs: bytes)
    ensures DecodeSpec(bs).Failure? <==> !IsEncoding(bs)
  {
    hide IsEncoding, IsEncodingOf, ParseTree, PayloadOf;
    AcceptsExactlyEncodings(bs);
  }

  /** An int component as bytesToInt reads it. */
  function IntOf(v: Value): int32 {
    if v.Primitive? then ReadInt(v.content) else 0
  }

  /** The payload has the components of a tree for its fields, octet for octet, ints as read. */
  predicate ReadFrom(p: Payload, alt: Alternative, vs: seq<Value>) {
    match p
    case Standard(payload) => alt == StandardAlt && vs == [Primitive(payload)]
    case File(filePath, start, end, table) =>
      && alt == FileAlt && |vs| == 4 && vs[0] == Primitive(filePath)
      && start == IntOf(vs[1]) && end == IntOf(vs[2]) && vs[3] == Primitive(table)
    case ViewportRequest(xStart, xEnd, yStart, yEnd) =>
      && alt == ViewportRequestAlt && |vs| == 4 && xStart == IntOf(vs[0]) && xEnd == IntOf(vs[1])
      && yStart == IntOf(vs[2]) && yEnd == IntOf(vs[3])
    case Viewport(xStart, xEnd, yStart, yEnd, table) =>
      && alt == ViewportAlt && |vs| == 5 && xStart == IntOf(vs[0]) && xEnd == IntOf(vs[1])
      && yStart == IntOf(vs[2]) && yEnd == IntOf(vs[3]) && vs[4] == Primitive(table)
    case TqlQuery(query) => alt == TqlQueryAlt && vs == [Primitive(query)]
    case Error(code, message) => alt == ErrorAlt && |vs| == 2 && code == IntOf(vs[0]) && vs[1] == Primitive(message)
    case Universal(kind, blob) => alt == UniversalAlt && |vs| == 2 && kind == IntOf(vs[0]) && vs[1] == Primitive(blob)
    case Ls(directory) => alt == LsAlt && vs == [Primitive(directory)]
    case LsSolution(content) => alt == LsSolutionAlt && vs == [Items(content)]
  }

  /** What an encoding decodes to, whoever has written it: nothing is cut, extended or lost. */
  lemma DecodedFields(t: Tree)
    requires WellTyped(t) && ContentSize(t) < 0x8000_0000
    ensures DecodeSpec(TreeDer(t)).Success?
    ensures var q := DecodeSpec(TreeDer(t)).value;
      q.id == ReadInt(t.id) && ReadFrom(q.payload, t.alt, t.values)
  {
    hide TreeDer, ParseTree, ReadInt, ContentSize;
    TreeRoundTrip(t);
  }

  lemma DecodeParsed(der: bytes, t: Tree)
    requires ParseTree(der) == Some(t) && WellTyped(t)
    ensures DecodeSpec(der) == Success(Packet(ReadInt(t.id), PayloadOf(t.alt, t.values)))
  {
  }

  /** Decoding an encoding yields the same alternative, normalised field by field. */
  lemma RoundTrip(p: Packet)
    requires Fits(p) && !(p.payload.File? && |p.payload.table| == 0)
    ensures EncodeSpec(p).Success?
    ensures DecodeSpec(EncodeSpec(p).value) == Success(NormalisePacket(p))
  {
    var t := TreeOf(p);
    TreeRoundTrip(t);
    DecodeParsed(TreeDer(t), t);
    PayloadRoundTrip(p.payload);
  }

  lemma NormaliseKeepsComponents(p: Payload)
    ensures MissesComponent(Normalise(p)) == MissesComponent(p)
    ensures BuffersPresent(Normalise(p)) == BuffersPresent(p)
    ensures AltOf(Normalise(p)) == AltOf(p)
  {
  }

  /** A second trip changes nothing more. */
  lemma SecondHopChangesNothing(p: Packet)
    requires !MissesComponent(p.payload) && Fits(p) && Fits(NormalisePacket(p))
    ensures EncodeSpec(p).Success? && DecodeSpec(EncodeSpec(p).value).Success?
    ensures var once := DecodeSpec(EncodeSpec(p).value).value;
      EncodeSpec(once).Success? && DecodeSpec(EncodeSpec(once).value) == Success(once)
  {
    RoundTrip(p);
    NormaliseKeepsComponents(p.payload);
    NormaliseIdempotent(p);
    RoundTrip(NormalisePacket(p));
  }

  /** Different packets never share an encoding, unless the strings differ past a NUL only. */
  lemma EncodingDeterminesPacket(p: Packet, q: Packet, x: bytes, y: bytes)
    requires Fits(p) && !MissesComponent(p.payload)
    requires Fits(q) && !MissesComponent(q.payload)
    requires EncodeSpec(p).value + x == EncodeSpec(q).value + y
    ensures x == y && p.id == q.id && AltOf(p.payload) == AltOf(q.payload)
    ensures NormalisePacket(p) == NormalisePacket(q)
    ensures Values(p.payload) == Values(q.payload)
  {
    PrefixFree(TreeOf(p), TreeOf(q), x, y);
    ContentDenotes(p.id);
    ContentDenotes(q.id);
    RoundTrip(p);
    RoundTrip(q);
  }
}
