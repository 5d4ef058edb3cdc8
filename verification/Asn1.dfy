/**
 * The encoder and decoder as the program runs them: a packet tree is created, its named
 * components are written one at a time, and the tree is sized and written to a buffer.
 */
module Asn1 {
  import opened Wrappers
  import opened Bytes
  import opened Integers
  import opened Der
  import opened PacketTypes
  import opened PacketCodec
  import Decimal

  function Lookup(values: map<Name, Value>, c: Component): Option<Value> {
    if c.name in values then Some(values[c.name])
    else if c.kind == SEQUENCE_OF_UTF8 then Some(Items([])) // a list nothing was appended to
    else None
  }

  ghost predicate Complete(values: map<Name, Value>, cs: seq<Component>) {
    forall i :: 0 <= i < |cs| ==> Lookup(values, cs[i]).Some?
  }

  /** The written components in schema order. */
  function Collect(values: map<Name, Value>, cs: seq<Component>): (r: Option<seq<Value>>)
    ensures r.Some? <==> Complete(values, cs)
    ensures r.Some? ==> |r.value| == |cs|
    ensures r.Some? ==> forall i :: 0 <= i < |cs| ==> Some(r.value[i]) == Lookup(values, cs[i])
  {
    if |cs| == 0 then Some([])
    else
      var init, last := cs[..|cs| - 1], cs[|cs| - 1];
      match (Collect(values, init), Lookup(values, last))
      case (Some(vs), Some(v)) => Some(vs + [v])
      case (None, _) => assert !Complete(values, init); None
      case (_, None) => None
  }

  lemma CollectIs(values: map<Name, Value>, cs: seq<Component>, vs: seq<Value>)
    requires |vs| == |cs|
    requires forall i :: 0 <= i < |cs| ==> Lookup(values, cs[i]) == Some(vs[i])
    ensures Collect(values, cs) == Some(vs)
  {
    var r := Collect(values, cs);
    assert Complete(values, cs);
    assert forall i :: 0 <= i < |cs| ==> Some(r.value[i]) == Some(vs[i]);
    assert r.value == vs;
  }

  /** libtasn1's tree for the Packet element: the chosen alternative and the values written. */
  class PacketNode {
    var choice: Option<Alternative>
    var values: map<Name, Value>

    /** asn1_create_element */
    constructor ()
      ensures choice == None && values == map[]
    {
      choice, values := None, map[];
    }

    method Choose(alt: Alternative)
      modifies this`choice
      ensures choice == Some(alt)
    {
      choice := Some(alt);
    }

    method WriteString(payload: bytes, key: Name)
      modifies this`values
      ensures values == old(values)[key := StringValue(payload)]
    {
      var len := StrLen(payload);
      values := values[key := Primitive(payload[..len])];
    }

    /** The int travels to libtasn1 as decimal text. */
    method WriteInt(payload: int32, key: Name)
      modifies this`values
      ensures values == old(values)[key := IntValue(payload)]
    {
      var text := Decimal.Print(payload);
      Decimal.PrintThenParse(payload);
      var number := Decimal.Parse(text).value;
      values := values[key := Primitive(IntContent(number))];
    }

    method WriteBuffer(buffer: bytes, key: Name)
      requires buffer != []
      modifies this`values
      ensures values == old(values)[key := Primitive(buffer)]
    {
      values := values[key := Primitive(buffer)];
    }

    /** Appends one element per item and writes it; nothing at all for an empty list. */
    method WriteVector(payload: seq<bytes>, key: Name)
      requires key !in values
      modifies this`values
      ensures values == if payload == [] then old(values) else old(values)[key := Items(payload)]
    {
      for index := 0 to |payload|
        invariant values == if index == 0 then old(values) else old(values)[key := Items(payload[..index])]
      {
        var items := if key in values then values[key].items else [];
        items := items + [[]];
        items := items[index := payload[index]];
        assert items == payload[..index + 1];
        values := values[key := Items(items)];
      }
      assert payload[..|payload|] == payload;
    }

    /** What every alternative's encoder leaves behind: its components, and the id untouched. */
    ghost predicate Holds(p: Payload, id: Value)
      reads this
    {
      && choice == Some(AltOf(p))
      && Id in values && values[Id] == id
      && Collect(values, Schema(AltOf(p))) == if MissesComponent(p) then None else Some(Values(p))
    }

    method EncodeStandard(p: Payload)
      requires p.Standard? && values.Keys == {Id}
      modifies this
      ensures Holds(p, old(values[Id]))
    {
      Choose(StandardAlt);
      WriteString(p.payload, Text);
      CollectIs(values, Schema(StandardAlt), Values(p));
    }

    method EncodeFile(p: Payload)
      requires p.File? && values.Keys == {Id}
      modifies this
      ensures Holds(p, old(values[Id]))
    {
      Choose(FileAlt);
      WriteString(p.filePath, FilePath);
      WriteInt(p.start, Start);
      WriteInt(p.end, End);
      if |p.table| > 0 {
        WriteBuffer(p.table, Blob);
        CollectIs(values, Schema(FileAlt), Values(p));
      } else {
        assert Lookup(values, Schema(FileAlt)[3]) == None;
      }
    }

    method EncodeViewportRequest(p: Payload)
      requires p.ViewportRequest? && values.Keys == {Id}
      modifies this
      ensures Holds(p, old(values[Id]))
    {
      Choose(ViewportRequestAlt);
      WriteInt(p.xStart, XStart);
      WriteInt(p.xEnd, XEnd);
      WriteInt(p.yStart, YStart);
      WriteInt(p.yEnd, YEnd);
      CollectIs(values, Schema(ViewportRequestAlt), Values(p));
    }

    method EncodeViewport(p: Payload)
      requires p.Viewport? && values.Keys == {Id} && BuffersPresent(p)
      modifies this
      ensures Holds(p, old(values[Id]))
    {
      Choose(ViewportAlt);
      WriteInt(p.xStart, XStart);
      WriteInt(p.xEnd, XEnd);
      WriteInt(p.yStart, YStart);
      WriteInt(p.yEnd, YEnd);
      WriteBuffer(p.table, Blob);
      CollectIs(values, Schema(ViewportAlt), Values(p));
    }

    method EncodeTqlQuery(p: Payload)
      requires p.TqlQuery? && values.Keys == {Id}
      modifies this
      ensures Holds(p, old(values[Id]))
    {
      Choose(TqlQueryAlt);
      WriteString(p.query, Query);
      CollectIs(values, Schema(TqlQueryAlt), Values(p));
    }

    method EncodeError(p: Payload)
      requires p.Error? && values.Keys == {Id}
      modifies this
      ensures Holds(p, old(values[Id]))
    {
      Choose(ErrorAlt);
      WriteInt(p.code, Code);
      WriteString(p.message, Message);
      CollectIs(values, Schema(ErrorAlt), Values(p));
    }

    method EncodeUniversal(p: Payload)
      requires p.Universal? && values.Keys == {Id} && BuffersPresent(p)
      modifies this
      ensures Holds(p, old(values[Id]))
    {
      Choose(UniversalAlt);
      WriteInt(p.kind, Type);
      WriteBuffer(p.blob, Blob);
      CollectIs(values, Schema(UniversalAlt), Values(p));
    }

    method EncodeLs(p: Payload)
      requires p.Ls? && values.Keys == {Id}
      modifies this
      ensures Holds(p, old(values[Id]))
    {
      Choose(LsAlt);
      WriteString(p.directory, Directory);
      CollectIs(values, Schema(LsAlt), Values(p));
    }

    method EncodeLsSolution(p: Payload)
      requires p.LsSolution? && values.Keys == {Id}
      modifies this
      ensures Holds(p, old(values[Id]))
    {
      Choose(LsSolutionAlt);
      WriteVector(p.content, DirectoryItems);
      CollectIs(values, Schema(LsSolutionAlt), Values(p));
    }

    method WritePayload(payload: Payload)
      requires BuffersPresent(payload) && values.Keys == {Id}
      modifies this
      ensures Holds(payload, old(values[Id]))
    {
      match payload {
        case Standard(_) => EncodeStandard(payload);
        case File(_, _, _, _) => EncodeFile(payload);
        case ViewportRequest(_, _, _, _) => EncodeViewportRequest(payload);
        case Viewport(_, _, _, _, _) => EncodeViewport(payload);
        case TqlQuery(_) => EncodeTqlQuery(payload);
        case Error(_, _) => EncodeError(payload);
        case Universal(_, _) => EncodeUniversal(payload);
        case Ls(_) => EncodeLs(payload);
        case LsSolution(_) => EncodeLsSolution(payload);
      }
    }
  }

  // ---------- the writing pass, in place ----------

  /** Tag and length, as they are written before the contents exist: from the size alone. */
  function Head(tag: byte, size: nat): bytes {
    [tag] + LengthOctets(size)
  }

  method Put(buffer: array<byte>, pos: nat, octets: bytes) returns (end: nat)
    requires pos + |octets| <= buffer.Length
    modifies buffer
    ensures end == pos + |octets|
    ensures buffer[..end] == old(buffer[..pos]) + octets
  {
    end := pos;
    for i := 0 to |octets|
      invariant end == pos + i
      invariant buffer[..end] == old(buffer[..pos]) + octets[..i]
    {
      buffer[end] := octets[i];
      assert octets[..i + 1] == octets[..i] + [octets[i]];
      end := end + 1;
    }
    assert octets[..|octets|] == octets;
  }

  method PutElement(buffer: array<byte>, pos: nat, tag: byte, content: bytes) returns (end: nat)
    requires pos + TlvSize(|content|) <= buffer.Length
    modifies buffer
    ensures end == pos + TlvSize(|content|)
    ensures buffer[..end] == old(buffer[..pos]) + Tlv(tag, content)
  {
    hide LengthOctets, LengthSize;
    ghost var before := buffer[..pos];
    end := Put(buffer, pos, Head(tag, |content|));
    end := Put(buffer, end, content);
    Associative(before, Head(tag, |content|), content);
  }

  method PutItems(buffer: array<byte>, pos: nat, items: seq<bytes>) returns (end: nat)
    requires pos + ItemsSize(items) <= buffer.Length
    modifies buffer
    ensures end == pos + ItemsSize(items)
    ensures buffer[..end] == old(buffer[..pos]) + ItemsDer(items)
  {
    hide Tlv, TlvSize;
    end := pos;
    ghost var before := buffer[..pos];
    assert items[0..] == items;
    for i := 0 to |items|
      invariant end + ItemsSize(items[i..]) == pos + ItemsSize(items)
      invariant buffer[..end] + ItemsDer(items[i..]) == before + ItemsDer(items)
    {
      assert items[i..][1..] == items[i + 1..];
      ghost var written := buffer[..end];
      end := PutElement(buffer, end, TAG_UTF8_STRING, items[i]);
      Associative(written, Tlv(TAG_UTF8_STRING, items[i]), ItemsDer(items[i + 1..]));
    }
    assert buffer[..end] + [] == buffer[..end];
  }

  method PutValue(buffer: array<byte>, pos: nat, kind: Kind, v: Value) returns (end: nat)
    requires Conforms(kind, v) && pos + ValueSize(v) <= buffer.Length
    modifies buffer
    ensures end == pos + ValueSize(v)
    ensures buffer[..end] == old(buffer[..pos]) + ValueDer(kind, v)
  {
    match kind {
      case INTEGER => end := PutElement(buffer, pos, TAG_INTEGER, v.content);
      case OCTET_STRING => end := PutElement(buffer, pos, TAG_OCTET_STRING, v.content);
      case SEQUENCE_OF_UTF8 =>
        hide LengthOctets, LengthSize, ItemsDer, ItemsSize;
        ghost var before := buffer[..pos];
        var head := Head(TAG_SEQUENCE, ItemsSize(v.items));
        end := Put(buffer, pos, head);
        end := PutItems(buffer, end, v.items);
        Associative(before, head, ItemsDer(v.items));
    }
  }

  method PutValues(buffer: array<byte>, pos: nat, cs: seq<Component>, vs: seq<Value>) returns (end: nat)
    requires AllConform(cs, vs) && pos + ValuesSize(vs) <= buffer.Length
    modifies buffer
    ensures end == pos + ValuesSize(vs)
    ensures buffer[..end] == old(buffer[..pos]) + ValuesDer(cs, vs)
  {
    hide ValueDer, ValueSize, Conforms;
    end := pos;
    ghost var before := buffer[..pos];
    assert cs[0..] == cs && vs[0..] == vs;
    for i := 0 to |vs|
      invariant end + ValuesSize(vs[i..]) == pos + ValuesSize(vs)
      invariant AllConform(cs[i..], vs[i..])
      invariant buffer[..end] + ValuesDer(cs[i..], vs[i..]) == before + ValuesDer(cs, vs)
    {
      assert cs[i..][1..] == cs[i + 1..] && vs[i..][1..] == vs[i + 1..];
      ghost var written := buffer[..end];
      end := PutValue(buffer, end, cs[i].kind, vs[i]);
      Associative(written, ValueDer(cs[i].kind, vs[i]), ValuesDer(cs[i + 1..], vs[i + 1..]));
    }
    assert buffer[..end] + [] == buffer[..end];
  }

  /**
   * Each length goes out before what it measures, as the sizing pass computed it; what comes
   * out is the encoding, and it fills the buffer to its last octet.
   */
  method WriteTree(buffer: array<byte>, t: Tree)
    requires WellTyped(t) && buffer.Length == TreeSize(t)
    modifies buffer
    ensures buffer[..] == TreeDer(t)
  {
    hide ValuesSize, ValuesDer, TreeDer, TreeSize, Heads, Conforms, Schema;
    HeadsFirst(t);
    var end := PutHeads(buffer, t);
    end := PutValues(buffer, end, Schema(t.alt), t.values);
    assert buffer[..end] == buffer[..];
  }

  method PutHeads(buffer: array<byte>, t: Tree) returns (end: nat)
    requires |Heads(t)| <= buffer.Length
    modifies buffer
    ensures end == |Heads(t)| && buffer[..end] == Heads(t)
  {
    hide LengthOctets, LengthSize, ValuesSize, Tlv, TlvSize, Head;
    var inner := ValuesSize(t.values);
    end := Put(buffer, 0, Head(TAG_SEQUENCE, TlvSize(|t.id|) + TlvSize(TlvSize(inner))));
    end := PutElement(buffer, end, TAG_INTEGER, t.id);
    end := Put(buffer, end, Head(AltTag(t.alt), TlvSize(inner)));
    end := Put(buffer, end, Head(TAG_SEQUENCE, inner));
  }

  /** What stands in the buffer before the first component. */
  ghost function Heads(t: Tree): bytes {
    var inner := ValuesSize(t.values);
    Head(TAG_SEQUENCE, TlvSize(|t.id|) + TlvSize(TlvSize(inner))) + Tlv(TAG_INTEGER, t.id)
      + Head(AltTag(t.alt), TlvSize(inner)) + Head(TAG_SEQUENCE, inner)
  }

  lemma HeadsFirst(t: Tree)
    requires WellTyped(t)
    ensures Heads(t) + ValuesDer(Schema(t.alt), t.values) == TreeDer(t)
    ensures |Heads(t)| + ValuesSize(t.values) == TreeSize(t)
  {
    hide LengthOctets, LengthSize, ValuesDer, Schema;
    var values := ValuesDer(Schema(t.alt), t.values);
    var id := Tlv(TAG_INTEGER, t.id);
    var first := Head(TAG_SEQUENCE, |id| + TlvSize(TlvSize(|values|)));
    var second, third := Head(AltTag(t.alt), TlvSize(|values|)), Head(TAG_SEQUENCE, |values|);
    Associative(first + id + second, third, values);
    Associative(first + id, second, third + values);
    Associative(first, id, second + (third + values));
  }

  /** Sizes the tree, then writes it into a buffer of exactly that size. */
  method Encode(payload: Payload, id: int32) returns (r: Result<bytes, CodecError>)
    requires BuffersPresent(payload) && Fits(Packet(id, payload))
    ensures r == EncodeSpec(Packet(id, payload))
    ensures r.Failure? <==> payload.File? && |payload.table| == 0
  {
    var packet := new PacketNode();
    packet.WriteInt(id, Id);
    packet.WritePayload(payload);
    var alt := packet.choice.value;
    var components := Collect(packet.values, Schema(alt));
    if components.None? {
      return Failure(EncodingFailed);
    }
    var tree := Tree(packet.values[Id].content, alt, components.value);
    assert tree == TreeOf(Packet(id, payload));
    var derLen := TreeSize(tree);
    var buffer := new byte[derLen];
    WriteTree(buffer, tree);
    r := Success(buffer[..]);
  }

  // ---------- decoding ----------

  /** The parsed tree's values under their names. */
  function Labelled(cs: seq<Component>, vs: seq<Value>): (values: map<Name, Value>)
    requires |vs| == |cs|
    requires forall i, j :: 0 <= i < j < |cs| ==> cs[i].name != cs[j].name
    ensures forall i :: 0 <= i < |cs| ==> cs[i].name in values && values[cs[i].name] == vs[i]
  {
    if |cs| == 0 then map[]
    else Labelled(cs[..|cs| - 1], vs[..|cs| - 1])[cs[|cs| - 1].name := vs[|cs| - 1]]
  }

  method ReadIntOf(values: map<Name, Value>, key: Name) returns (v: int32)
    requires HasInt(values, key)
    ensures v == ReadInt(values[key].content)
  {
    var payloadBytes := values[key].content;
    v := BytesToInt(payloadBytes, |payloadBytes|);
    assert payloadBytes[..|payloadBytes|] == payloadBytes;
  }

  ghost predicate HasInt(values: map<Name, Value>, key: Name) {
    key in values && values[key].Primitive?
  }

  method ReadArea(values: map<Name, Value>) returns (xStart: int32, xEnd: int32, yStart: int32, yEnd: int32)
    requires HasInt(values, XStart) && HasInt(values, XEnd)
    requires HasInt(values, YStart) && HasInt(values, YEnd)
    ensures xStart == ReadInt(values[XStart].content) && xEnd == ReadInt(values[XEnd].content)
    ensures yStart == ReadInt(values[YStart].content) && yEnd == ReadInt(values[YEnd].content)
  {
    xStart := ReadIntOf(values, XStart);
    xEnd := ReadIntOf(values, XEnd);
    yStart := ReadIntOf(values, YStart);
    yEnd := ReadIntOf(values, YEnd);
  }

  method ReadVector(values: map<Name, Value>, key: Name) returns (result: seq<bytes>)
    requires key in values && values[key].Items?
    ensures result == values[key].items
  {
    var elements := values[key].items;
    result := [];
    for index := 0 to |elements|
      invariant result == elements[..index]
    {
      result := result + [elements[index]];
    }
  }

  method ReadPayload(alt: Alternative, values: map<Name, Value>, ghost vs: seq<Value>)
    returns (p: Payload)
    requires AllConform(Schema(alt), vs) && values == Labelled(Schema(alt), vs)
    ensures p == PayloadOf(alt, vs)
  {
    var a, b, c, d: int32;
    ghost var cs := Schema(alt);
    match alt {
      case StandardAlt =>
        assert cs[0].name == Text;
        p := Standard(values[Text].content);
      case FileAlt =>
        assert cs[0].name == FilePath && cs[1].name == Start && cs[2].name == End && cs[3].name == Blob;
        a := ReadIntOf(values, Start);
        b := ReadIntOf(values, End);
        p := File(values[FilePath].content, a, b, values[Blob].content);
      case ViewportRequestAlt =>
        assert cs[0].name == XStart && cs[1].name == XEnd && cs[2].name == YStart && cs[3].name == YEnd;
        a, b, c, d := ReadArea(values);
        p := ViewportRequest(a, b, c, d);
      case ViewportAlt =>
        assert cs[0].name == XStart && cs[1].name == XEnd && cs[2].name == YStart && cs[3].name == YEnd;
        assert cs[4].name == Blob;
        a, b, c, d := ReadArea(values);
        p := Viewport(a, b, c, d, values[Blob].content);
      case TqlQueryAlt =>
        assert cs[0].name == Query;
        p := TqlQuery(values[Query].content);
      case ErrorAlt =>
        assert cs[0].name == Code && cs[1].name == Message;
        a := ReadIntOf(values, Code);
        p := Error(a, values[Message].content);
      case UniversalAlt =>
        assert cs[0].name == Type && cs[1].name == Blob;
        a := ReadIntOf(values, Type);
        p := Universal(a, values[Blob].content);
      case LsAlt =>
        assert cs[0].name == Directory;
        p := Ls(values[Directory].content);
      case LsSolutionAlt =>
        assert cs[0].name == DirectoryItems;
        var content := ReadVector(values, DirectoryItems);
        p := LsSolution(content);
    }
  }

  /** decode throws on anything that is not DER for the schema. */
  method Decode(derBuffer: bytes) returns (r: Result<Packet, CodecError>)
    ensures r == DecodeSpec(derBuffer)
    ensures r.Failure? <==> !IsEncoding(derBuffer)
  {
    DecodeFails(derBuffer);
    hide IsEncoding;
    match ParseTree(derBuffer) {
      case None => r := Failure(DecodingFailed);
      case Some(t) =>
        var id := BytesToInt(t.id, |t.id|);
        assert t.id[..|t.id|] == t.id;
        var payload := ReadPayload(t.alt, Labelled(Schema(t.alt), t.values), t.values);
        r := Success(Packet(id, payload));
    }
  }
}
