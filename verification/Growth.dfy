/**
 * How a packet's length changes on a hop. An int whose sign is lost arrives one octet longer;
 * nothing else changes in length, for strings are cut before they are encoded.
 */
module Growth {
  import opened Bytes
  import opened Integers
  import opened Der
  import opened PacketTypes
  import opened PacketCodec

  function LostSign(v: int32): nat {
    if Survives(v) then 0 else 1
  }

  /** How many of a packet's ints, its id included, lose their sign. */
  function LostSigns(p: Packet): nat {
    LostSign(p.id) + LostInPayload(p.payload)
  }

  function LostInPayload(p: Payload): nat {
    match p
    case File(_, start, end, _) => LostSign(start) + LostSign(end)
    case ViewportRequest(xStart, xEnd, yStart, yEnd) =>
      LostSign(xStart) + LostSign(xEnd) + LostSign(yStart) + LostSign(yEnd)
    case Viewport(xStart, xEnd, yStart, yEnd, _) =>
      LostSign(xStart) + LostSign(xEnd) + LostSign(yStart) + LostSign(yEnd)
    case Error(code, _) => LostSign(code)
    case Universal(kind, _) => LostSign(kind)
    case _ => 0
  }

  // ---------- components ----------

  lemma IntGrows(v: int32)
    ensures ValueSize(IntValue(NormInt(v))) == ValueSize(IntValue(v)) + LostSign(v)
    ensures ValueSize(IntValue(v)) == |IntContent(v)| + 2
    ensures |IntContent(NormInt(v))| == |IntContent(v)| + LostSign(v)
  {
    hide NormInt, IntContent;
    LostSignTakesAnOctet(v);
    ContentLength(v);
    ContentLength(NormInt(v));
  }

  lemma StringStays(s: bytes)
    ensures StringValue(CutNul(s)) == StringValue(s)
  {
    CutNulFixpoint(s);
  }

  lemma {:induction false} SizeAppend(vs: seq<Value>, v: Value)
    ensures ValuesSize(vs + [v]) == ValuesSize(vs) + ValueSize(v)
  {
    hide ValueSize;
    if |vs| == 0 {
      assert (vs + [v])[1..] == [];
    } else {
      SizeAppend(vs[1..], v);
      assert (vs + [v])[1..] == vs[1..] + [v];
    }
  }

  lemma SizeOfTwo(a: Value, b: Value)
    ensures ValuesSize([a, b]) == ValueSize(a) + ValueSize(b)
  {
    hide ValueSize;
    SizeAppend([], a);
    assert [] + [a] == [a] && [a] + [b] == [a, b];
    SizeAppend([a], b);
  }

  lemma SizeOfFour(a: Value, b: Value, c: Value, d: Value)
    ensures ValuesSize([a, b, c, d]) == ValueSize(a) + ValueSize(b) + ValueSize(c) + ValueSize(d)
  {
    hide ValueSize, ValuesSize;
    SizeOfTwo(a, b);
    SizeAppend([a, b], c);
    SizeAppend([a, b, c], d);
    assert [a, b] + [c] == [a, b, c] && [a, b, c] + [d] == [a, b, c, d];
  }

  lemma AreaGrows(a: int32, b: int32, c: int32, d: int32)
    ensures ValuesSize([IntValue(NormInt(a)), IntValue(NormInt(b)), IntValue(NormInt(c)), IntValue(NormInt(d))])
      == ValuesSize([IntValue(a), IntValue(b), IntValue(c), IntValue(d)])
         + LostSign(a) + LostSign(b) + LostSign(c) + LostSign(d)
  {
    hide *;
    IntGrows(a);
    IntGrows(b);
    IntGrows(c);
    IntGrows(d);
    SizeOfFour(IntValue(a), IntValue(b), IntValue(c), IntValue(d));
    SizeOfFour(IntValue(NormInt(a)), IntValue(NormInt(b)), IntValue(NormInt(c)), IntValue(NormInt(d)));
  }

  lemma PayloadGrows(p: Payload)
    ensures ValuesSize(Values(Normalise(p))) == ValuesSize(Values(p)) + LostInPayload(p)
  {
    hide ValueSize, ValuesSize, IntValue, StringValue, NormInt, CutNul, LostSign;
    match p
    case Standard(payload) => StringStays(payload);
    case File(filePath, start, end, table) =>
      StringStays(filePath);
      IntGrows(start);
      IntGrows(end);
      SizeOfFour(StringValue(filePath), IntValue(start), IntValue(end), Primitive(table));
      SizeOfFour(StringValue(filePath), IntValue(NormInt(start)), IntValue(NormInt(end)), Primitive(table));
    case ViewportRequest(xStart, xEnd, yStart, yEnd) => AreaGrows(xStart, xEnd, yStart, yEnd);
    case Viewport(xStart, xEnd, yStart, yEnd, table) =>
      AreaGrows(xStart, xEnd, yStart, yEnd);
      var area := [IntValue(xStart), IntValue(xEnd), IntValue(yStart), IntValue(yEnd)];
      var area' := [IntValue(NormInt(xStart)), IntValue(NormInt(xEnd)), IntValue(NormInt(yStart)), IntValue(NormInt(yEnd))];
      SizeAppend(area, Primitive(table));
      SizeAppend(area', Primitive(table));
      assert Values(p) == area + [Primitive(table)] && Values(Normalise(p)) == area' + [Primitive(table)];
    case TqlQuery(query) => StringStays(query);
    case Error(code, message) =>
      IntGrows(code);
      StringStays(message);
      SizeOfTwo(IntValue(code), StringValue(message));
      SizeOfTwo(IntValue(NormInt(code)), StringValue(message));
    case Universal(kind, blob) =>
      IntGrows(kind);
      SizeOfTwo(IntValue(kind), Primitive(blob));
      SizeOfTwo(IntValue(NormInt(kind)), Primitive(blob));
    case Ls(directory) => StringStays(directory);
    case LsSolution(_) =>
  }

  // ---------- the packet ----------

  /** From 2^24 up to 2^32 there are four length octets, below that fewer. */
  lemma FourLengthOctets(n: nat)
    ensures TlvSize(n) >= n
    ensures n < TWO_32 ==> TlvSize(n) <= n + 6
    ensures 0x100_0000 <= n < TWO_32 ==> TlvSize(n) == n + 6
  {
    hide Width;
    assert Width(0x100_0000) == 4 by { WidthOfPower(); }
    if 128 <= n < TWO_32 {
      SmallPowers();
      WidthIsLeast(n, 4);
      if n >= 0x100_0000 {
        WidthMonotone(0x100_0000, n);
      }
    }
  }

  lemma WidthOfPower()
    ensures Width(0x100_0000) == 4
  {
    assert Width(0x1_0000) == 1 + Width(0x100) == 2 + Width(1) == 3;
  }

  /** The lengths of a packet's elements, from the inside out. */
  function Wrapped(id: nat, inner: nat): nat {
    TlvSize(id + 2 + TlvSize(TlvSize(inner)))
  }

  lemma SizeIsWrapped(p: Packet)
    ensures TreeSize(TreeOf(p)) == Wrapped(|IntContent(p.id)|, ValuesSize(Values(p.payload)))
  {
    hide ValuesSize, Values, IntContent;
    ContentLength(p.id);
    IntGrows(p.id);
  }

  /** A few octets more inside are as many more outside, or the packet is far from the limit. */
  lemma WrappedGrows(id: nat, inner: nat, moreId: nat, moreInner: nat)
    requires id <= 4 && moreId <= 1 && moreInner <= 4
    ensures Wrapped(id + moreId, inner + moreInner) < MAX_SIZE
      <==> Wrapped(id, inner) + moreId + moreInner < MAX_SIZE
  {
    hide TlvSize;
    var a, b := TlvSize(inner), TlvSize(inner + moreInner);
    FourLengthOctets(inner);
    FourLengthOctets(inner + moreInner);
    FourLengthOctets(a);
    FourLengthOctets(b);
    FourLengthOctets(id + 2 + TlvSize(a));
    FourLengthOctets(id + moreId + 2 + TlvSize(b));
  }

  /** The packet a hop makes of p fits an int exactly when p leaves room for its lost signs. */
  lemma FitsAfterHop(p: Packet)
    ensures Fits(NormalisePacket(p)) <==> TreeSize(TreeOf(p)) + LostSigns(p) < MAX_SIZE
  {
    hide TreeSize, TreeOf, Values, Normalise, NormInt, IntContent, ValuesSize, LostInPayload, LostSign, Wrapped;
    PayloadGrows(p.payload);
    IntGrows(p.id);
    SizeIsWrapped(p);
    SizeIsWrapped(NormalisePacket(p));
    FewLost(p);
    WrappedGrows(|IntContent(p.id)|, ValuesSize(Values(p.payload)), LostSign(p.id), LostInPayload(p.payload));
  }

  lemma FewLost(p: Packet)
    ensures LostSign(p.id) <= 1 && LostInPayload(p.payload) <= 4 && |IntContent(p.id)| <= 4
  {
    hide IntContent;
    ContentLength(p.id);
  }

  /** The length of a packet that is nearly all blob. */
  lemma BlobPacketSize(kind: int32, blob: bytes)
    requires 0x100_0000 <= |blob| < MAX_SIZE
    ensures TreeSize(TreeOf(Packet(0, Universal(kind, blob)))) == |blob| + 29 + |IntContent(kind)|
  {
    hide TreeSize, TreeOf, TlvSize, IntContent, ValuesSize;
    var p := Packet(0, Universal(kind, blob));
    SizeIsWrapped(p);
    ContentLength(0);
    ContentLength(kind);
    IntGrows(kind);
    SizeOfTwo(IntValue(kind), Primitive(blob));
    FourLengthOctets(|blob|);
    var inner := |IntContent(kind)| + 2 + TlvSize(|blob|);
    FourLengthOctets(inner);
    FourLengthOctets(TlvSize(inner));
    FourLengthOctets(3 + TlvSize(TlvSize(inner)));
  }
}
