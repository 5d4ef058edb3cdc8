/**
 * DER tag-length-value encodings (X.690 sections 8.1.3 and 10.1): a sizing function, an
 * encoder and a strict parser, and the schema-directed codec for packets.asn1 over them.
 */
module Der {
  import opened Wrappers
  import opened Bytes
  import opened Integers

  // ---------- lengths ----------

  /** Lengths are C++ ints in the program; nothing longer is encoded. */
  const MAX_SIZE := 0x8000_0000

  function LengthSize(n: nat): nat {
    if n < 128 then 1 else 1 + Width(n)
  }

  /** Short form below 128, else the least number of length octets after their count. */
  function LengthOctets(n: nat): (bs: bytes)
    ensures |bs| == LengthSize(n)
  {
    if n < 128 then [n] else [(128 + Width(n)) % 256] + Octets(n, Width(n))
  }

  /** Reads a definite, minimal length below MAX_SIZE off the front. */
  function ParseLength(bs: bytes): (r: Option<(nat, bytes)>)
    ensures r.Some? ==> |r.value.1| < |bs|
  {
    if |bs| == 0 then None
    else if bs[0] < 128 then Some((bs[0], bs[1..]))
    else
      var count := bs[0] - 128;
      if count == 0 || |bs| < 1 + count || bs[1] == 0 then None
      else
        var n := BigEndian(bs[1..1 + count]);
        if n < 128 || n >= MAX_SIZE then None else Some((n, bs[1 + count..]))
  }

  lemma SmallWidth(n: nat)
    requires n < MAX_SIZE
    ensures Width(n) <= 4
  {
    WidthMonotone(n, 0x7FFF_FFFF);
    assert Width(0x7FFF_FFFF) == 1 + Width(0x7F_FFFF) == 2 + Width(0x7FFF);
  }

  lemma LengthRoundTrip(n: nat, rest: bytes)
    requires n < MAX_SIZE
    ensures ParseLength(LengthOctets(n) + rest) == Some((n, rest))
  {
    hide ParseLength, BigEndian, Octets, Width;
    if n < 128 {
      ShortFormParses(n, rest);
    } else {
      SmallWidth(n);
      WidthHasNoLeadingZero(n);
      OctetsThenBigEndian(n, Width(n));
      LongFormParses(n, Octets(n, Width(n)), rest);
    }
  }

  lemma ShortFormParses(n: nat, rest: bytes)
    requires n < 128
    ensures ParseLength([n] + rest) == Some((n, rest))
  {
    hide BigEndian;
    assert ([n] + rest)[1..] == rest;
  }

  lemma LongFormParses(n: nat, octets: bytes, rest: bytes)
    requires 128 <= n < MAX_SIZE && BigEndian(octets) == n
    requires 1 <= |octets| <= 4 && octets[0] != 0
    ensures ParseLength([128 + |octets|] + octets + rest) == Some((n, rest))
  {
    hide BigEndian;
    var bs := [128 + |octets|] + octets + rest;
    assert bs[1..1 + |octets|] == octets;
    assert bs[1 + |octets|..] == rest;
  }

  lemma LengthCanonical(bs: bytes)
    requires ParseLength(bs).Some?
    ensures var (n, rest) := ParseLength(bs).value; n < MAX_SIZE && bs == LengthOctets(n) + rest
  {
    if bs[0] >= 128 {
      var count := bs[0] - 128;
      var octets, rest := bs[1..1 + count], bs[1 + count..];
      assert bs == [bs[0]] + octets + rest;
      LongFormWritten(bs[0], octets);
    } else {
      assert bs == [bs[0]] + bs[1..];
    }
  }

  lemma LongFormWritten(first: byte, octets: bytes)
    requires first == 128 + |octets| && octets != [] && octets[0] != 0
    requires 128 <= BigEndian(octets)
    ensures LengthOctets(BigEndian(octets)) == [first] + octets
  {
    hide BigEndian, Octets, Width;
    NoLeadingZeroIsMinimal(octets);
    BigEndianThenOctets(octets);
  }

  /** X.690 section 8.1.3: bs is a definite length, of either form, denoting n. */
  predicate DenotesLength(bs: bytes, n: nat) {
    || (|bs| == 1 && bs[0] < 128 && n == bs[0])
    || (|bs| > 1 && bs[0] == 127 + |bs| && n == BigEndian(bs[1..]))
  }

  /** X.690 section 10.1: of all length octets denoting n, these are the only shortest ones. */
  lemma LengthOctetsShortest(n: nat, bs: bytes)
    requires n < MAX_SIZE && DenotesLength(bs, n)
    ensures DenotesLength(LengthOctets(n), n)
    ensures |LengthOctets(n)| <= |bs|
    ensures |LengthOctets(n)| == |bs| ==> LengthOctets(n) == bs
  {
    hide BigEndian, Octets, Width;
    if |bs| == 1 {
      assert bs == [n];
    } else if n >= 128 {
      LongFormShortest(n, bs[0], bs[1..]);
      assert bs == [bs[0]] + bs[1..];
    }
  }

  lemma LongFormDenotes(n: nat)
    requires 128 <= n < MAX_SIZE
    ensures LengthOctets(n) == [128 + Width(n)] + Octets(n, Width(n))
    ensures DenotesLength(LengthOctets(n), n)
  {
    hide DenotesLength, Octets, Width, BigEndian;
    SmallWidth(n);
    OctetsThenBigEndian(n, Width(n));
    PrefixedDenotes(Octets(n, Width(n)));
  }

  lemma PrefixedDenotes(octets: bytes)
    requires 1 <= |octets| <= 4
    ensures DenotesLength([128 + |octets|] + octets, BigEndian(octets))
  {
    hide BigEndian;
    assert ([128 + |octets|] + octets)[1..] == octets;
  }

  lemma LongFormShortest(n: nat, first: byte, octets: bytes)
    requires 128 <= n < MAX_SIZE && first == 128 + |octets| && n == BigEndian(octets)
    ensures DenotesLength(LengthOctets(n), n)
    ensures |LengthOctets(n)| <= 1 + |octets|
    ensures |LengthOctets(n)| == 1 + |octets| ==> LengthOctets(n) == [first] + octets
  {
    hide BigEndian, Octets, Width, DenotesLength, LengthOctets;
    LongFormDenotes(n);
    OctetsAreShortest(n, octets);
  }

  lemma OctetsAreShortest(n: nat, octets: bytes)
    requires n == BigEndian(octets) && n > 0
    ensures Width(n) <= |octets|
    ensures Width(n) == |octets| ==> octets == Octets(n, Width(n))
  {
    BigEndianThenOctets(octets);
    WidthIsLeast(n, |octets|);
  }

  // ---------- one element ----------

  function TlvSize(contentSize: nat): nat {
    1 + LengthSize(contentSize) + contentSize
  }

  function Tlv(tag: byte, content: bytes): (bs: bytes)
    ensures |bs| == TlvSize(|content|)
  {
    [tag] + LengthOctets(|content|) + content
  }

  /** Splits off one element with the given tag: its content and what follows. */
  function ParseTlv(tag: byte, bs: bytes): (r: Option<(bytes, bytes)>)
    ensures r.Some? ==> |r.value.1| < |bs| && |r.value.0| < |bs|
  {
    if |bs| == 0 || bs[0] != tag then None
    else match ParseLength(bs[1..])
      case None => None
      case Some((n, rest)) => if n <= |rest| then Some((rest[..n], rest[n..])) else None
  }

  lemma TlvRoundTrip(tag: byte, content: bytes, rest: bytes)
    requires |content| < MAX_SIZE
    ensures ParseTlv(tag, Tlv(tag, content) + rest) == Some((content, rest))
  {
    hide LengthOctets, ParseLength;
    var bs, tail := Tlv(tag, content) + rest, content + rest;
    assert bs[0] == tag && bs[1..] == LengthOctets(|content|) + tail;
    assert tail[..|content|] == content && tail[|content|..] == rest;
    LengthRoundTrip(|content|, tail);
  }

  lemma TlvCanonical(tag: byte, bs: bytes)
    requires ParseTlv(tag, bs).Some?
    ensures var (content, rest) := ParseTlv(tag, bs).value;
      |content| < MAX_SIZE && bs == Tlv(tag, content) + rest
  {
    hide LengthOctets, ParseLength;
    LengthCanonical(bs[1..]);
    var (n, rest) := ParseLength(bs[1..]).value;
    assert bs == [tag] + bs[1..];
    assert rest == rest[..n] + rest[n..];
  }

  // ---------- the schema of packets.asn1 ----------

  const TAG_INTEGER: byte := 0x02
  const TAG_OCTET_STRING: byte := 0x04
  const TAG_UTF8_STRING: byte := 0x0C
  const TAG_SEQUENCE: byte := 0x30
  const TAG_CHOICE: byte := 0xA0 // context-specific, constructed; plus the alternative's number

  datatype Kind = INTEGER | OCTET_STRING | SEQUENCE_OF_UTF8

  /** What the dotted paths of the program name: the id, and the components by field name. */
  datatype Name =
    | Id | Text | FilePath | Start | End | XStart | XEnd | YStart | YEnd
    | Query | Code | Message | Type | Blob | Directory | DirectoryItems

  datatype Component = Component(name: Name, kind: Kind)

  /** The alternatives of the CHOICE, in the order of their tags. */
  datatype Alternative =
    | StandardAlt | FileAlt | ViewportRequestAlt | ViewportAlt | TqlQueryAlt
    | ErrorAlt | UniversalAlt | LsAlt | LsSolutionAlt

  function AltNumber(alt: Alternative): (n: nat)
    ensures n < 9
  {
    match alt
    case StandardAlt => 0
    case FileAlt => 1
    case ViewportRequestAlt => 2
    case ViewportAlt => 3
    case TqlQueryAlt => 4
    case ErrorAlt => 5
    case UniversalAlt => 6
    case LsAlt => 7
    case LsSolutionAlt => 8
  }

  function AltTag(alt: Alternative): byte {
    TAG_CHOICE + AltNumber(alt)
  }

  function AltOfTag(tag: byte): (r: Option<Alternative>)
    ensures r.Some? ==> AltTag(r.value) == tag
    ensures r.None? ==> forall alt :: AltTag(alt) != tag
  {
    match tag - TAG_CHOICE
    case 0 => Some(StandardAlt)
    case 1 => Some(FileAlt)
    case 2 => Some(ViewportRequestAlt)
    case 3 => Some(ViewportAlt)
    case 4 => Some(TqlQueryAlt)
    case 5 => Some(ErrorAlt)
    case 6 => Some(UniversalAlt)
    case 7 => Some(LsAlt)
    case 8 => Some(LsSolutionAlt)
    case _ => None
  }

  function Schema(alt: Alternative): (cs: seq<Component>)
    ensures forall i, j :: 0 <= i < j < |cs| ==> cs[i].name != cs[j].name
  {
    match alt
    case StandardAlt => [Component(Text, OCTET_STRING)]
    case FileAlt => [
      Component(FilePath, OCTET_STRING), Component(Start, INTEGER),
      Component(End, INTEGER), Component(Blob, OCTET_STRING)]
    case ViewportRequestAlt => [
      Component(XStart, INTEGER), Component(XEnd, INTEGER),
      Component(YStart, INTEGER), Component(YEnd, INTEGER)]
    case ViewportAlt => [
      Component(XStart, INTEGER), Component(XEnd, INTEGER),
      Component(YStart, INTEGER), Component(YEnd, INTEGER), Component(Blob, OCTET_STRING)]
    case TqlQueryAlt => [Component(Query, OCTET_STRING)]
    case ErrorAlt => [Component(Code, INTEGER), Component(Message, OCTET_STRING)]
    case UniversalAlt => [Component(Type, INTEGER), Component(Blob, OCTET_STRING)]
    case LsAlt => [Component(Directory, OCTET_STRING)]
    case LsSolutionAlt => [Component(DirectoryItems, SEQUENCE_OF_UTF8)]
  }

  /** Contents octets of one component: primitive, or one string per list item. */
  datatype Value = Primitive(content: bytes) | Items(items: seq<bytes>)

  predicate Conforms(kind: Kind, v: Value) {
    match kind
    case INTEGER => v.Primitive? && Minimal(v.content)
    case OCTET_STRING => v.Primitive?
    case SEQUENCE_OF_UTF8 => v.Items?
  }

  ghost predicate AllConform(cs: seq<Component>, vs: seq<Value>) {
    |vs| == |cs| && forall i :: 0 <= i < |cs| ==> Conforms(cs[i].kind, vs[i])
  }

  /** A filled-in Packet: its id's contents, the chosen alternative and that one's components. */
  datatype Tree = Tree(id: bytes, alt: Alternative, values: seq<Value>)

  ghost predicate WellTyped(t: Tree) {
    Minimal(t.id) && AllConform(Schema(t.alt), t.values)
  }

  // ---------- sizing pass ----------

  function ItemsSize(items: seq<bytes>): nat {
    if |items| == 0 then 0 else TlvSize(|items[0]|) + ItemsSize(items[1..])
  }

  function ValueSize(v: Value): nat {
    match v
    case Primitive(content) => TlvSize(|content|)
    case Items(items) => TlvSize(ItemsSize(items))
  }

  function ValuesSize(vs: seq<Value>): nat {
    if |vs| == 0 then 0 else ValueSize(vs[0]) + ValuesSize(vs[1..])
  }

  function TreeSize(t: Tree): nat {
    TlvSize(TlvSize(|t.id|) + TlvSize(TlvSize(ValuesSize(t.values))))
  }

  // ---------- writing pass ----------

  function ItemsDer(items: seq<bytes>): (bs: bytes)
    ensures |bs| == ItemsSize(items)
  {
    if |items| == 0 then [] else Tlv(TAG_UTF8_STRING, items[0]) + ItemsDer(items[1..])
  }

  function ValueDer(kind: Kind, v: Value): (bs: bytes)
    requires Conforms(kind, v)
    ensures |bs| == ValueSize(v)
  {
    match kind
    case INTEGER => Tlv(TAG_INTEGER, v.content)
    case OCTET_STRING => Tlv(TAG_OCTET_STRING, v.content)
    case SEQUENCE_OF_UTF8 => Tlv(TAG_SEQUENCE, ItemsDer(v.items))
  }

  function ValuesDer(cs: seq<Component>, vs: seq<Value>): (bs: bytes)
    requires AllConform(cs, vs)
    ensures |bs| == ValuesSize(vs)
  {
    if |vs| == 0 then [] else ValueDer(cs[0].kind, vs[0]) + ValuesDer(cs[1..], vs[1..])
  }

  /** The DER encoding of a packet; its length is what the sizing pass computes. */
  function TreeDer(t: Tree): (bs: bytes)
    requires WellTyped(t)
    ensures |bs| == TreeSize(t)
  {
    Tlv(TAG_SEQUENCE,
        Tlv(TAG_INTEGER, t.id)
        + Tlv(AltTag(t.alt), Tlv(TAG_SEQUENCE, ValuesDer(Schema(t.alt), t.values))))
  }

  // ---------- decoding ----------

  function ParseItems(bs: bytes): Option<seq<bytes>> {
    if |bs| == 0 then Some([])
    else match ParseTlv(TAG_UTF8_STRING, bs)
      case None => None
      case Some((item, rest)) =>
        match ParseItems(rest)
        case None => None
        case Some(items) => Some([item] + items)
  }

  function ParseValue(kind: Kind, bs: bytes): (r: Option<(Value, bytes)>)
    ensures r.Some? ==> Conforms(kind, r.value.0)
  {
    var tag := match kind
      case INTEGER => TAG_INTEGER
      case OCTET_STRING => TAG_OCTET_STRING
      case SEQUENCE_OF_UTF8 => TAG_SEQUENCE;
    match ParseTlv(tag, bs)
    case None => None
    case Some((content, rest)) =>
      match kind
      case INTEGER => if Minimal(content) then Some((Primitive(content), rest)) else None
      case OCTET_STRING => Some((Primitive(content), rest))
      case SEQUENCE_OF_UTF8 =>
        match ParseItems(content)
        case None => None
        case Some(items) => Some((Items(items), rest))
  }

  /** All components in order and nothing after them. */
  function ParseValues(cs: seq<Component>, bs: bytes): (r: Option<seq<Value>>)
    ensures r.Some? ==> AllConform(cs, r.value)
  {
    if |cs| == 0 then (if |bs| == 0 then Some([]) else None)
    else match ParseValue(cs[0].kind, bs)
      case None => None
      case Some((v, rest)) =>
        match ParseValues(cs[1..], rest)
        case None => None
        case Some(vs) => Some([v] + vs)
  }

  function ParseChoice(bs: bytes): (r: Option<(Alternative, seq<Value>)>)
    ensures r.Some? ==> AllConform(Schema(r.value.0), r.value.1)
  {
    if |bs| == 0 then None
    else match AltOfTag(bs[0])
      case None => None
      case Some(alt) =>
        match ParseTlv(bs[0], bs)
        case None => None
        case Some((sequence, trailing)) =>
          match ParseTlv(TAG_SEQUENCE, sequence)
          case None => None
          case Some((fields, after)) =>
            if trailing != [] || after != [] then None
            else match ParseValues(Schema(alt), fields)
              case None => None
              case Some(vs) => Some((alt, vs))
  }

  function ParseTree(bs: bytes): (r: Option<Tree>)
    ensures r.Some? ==> WellTyped(r.value)
  {
    match ParseTlv(TAG_SEQUENCE, bs)
    case None => None
    case Some((packet, trailing)) =>
      match ParseTlv(TAG_INTEGER, packet)
      case None => None
      case Some((id, choice)) =>
        if trailing != [] || !Minimal(id) then None
        else match ParseChoice(choice)
          case None => None
          case Some((alt, vs)) => Some(Tree(id, alt, vs))
  }

  // ---------- the parser inverts the encoder ----------

  lemma {:induction false} ItemsRoundTrip(items: seq<bytes>)
    requires ItemsSize(items) < MAX_SIZE
    ensures ParseItems(ItemsDer(items)) == Some(items)
  {
    if |items| > 0 {
      TlvRoundTrip(TAG_UTF8_STRING, items[0], ItemsDer(items[1..]));
      ItemsRoundTrip(items[1..]);
      assert items == [items[0]] + items[1..];
    }
  }

  lemma ValueRoundTrip(kind: Kind, v: Value, rest: bytes)
    requires Conforms(kind, v) && ValueSize(v) < MAX_SIZE
    ensures ParseValue(kind, ValueDer(kind, v) + rest) == Some((v, rest))
  {
    match kind
    case INTEGER => TlvRoundTrip(TAG_INTEGER, v.content, rest);
    case OCTET_STRING => TlvRoundTrip(TAG_OCTET_STRING, v.content, rest);
    case SEQUENCE_OF_UTF8 =>
      TlvRoundTrip(TAG_SEQUENCE, ItemsDer(v.items), rest);
      ItemsRoundTrip(v.items);
  }

  lemma {:induction false} ValuesRoundTrip(cs: seq<Component>, vs: seq<Value>)
    requires AllConform(cs, vs) && ValuesSize(vs) < MAX_SIZE
    ensures ParseValues(cs, ValuesDer(cs, vs)) == Some(vs)
  {
    if |vs| > 0 {
      ValueRoundTrip(cs[0].kind, vs[0], ValuesDer(cs[1..], vs[1..]));
      ValuesRoundTrip(cs[1..], vs[1..]);
      assert vs == [vs[0]] + vs[1..];
    }
  }

  lemma ChoiceRoundTrip(alt: Alternative, vs: seq<Value>)
    requires AllConform(Schema(alt), vs) && TlvSize(TlvSize(ValuesSize(vs))) < MAX_SIZE
    ensures ParseChoice(Tlv(AltTag(alt), Tlv(TAG_SEQUENCE, ValuesDer(Schema(alt), vs)))) == Some((alt, vs))
  {
    var fields := ValuesDer(Schema(alt), vs);
    var sequence := Tlv(TAG_SEQUENCE, fields);
    ValuesRoundTrip(Schema(alt), vs);
    TlvRoundTrip(TAG_SEQUENCE, fields, []);
    assert sequence + [] == sequence;
    TlvRoundTrip(AltTag(alt), sequence, []);
    assert Tlv(AltTag(alt), sequence) + [] == Tlv(AltTag(alt), sequence);
    AltTagIsInjective(alt, AltOfTag(AltTag(alt)).value);
  }

  lemma AltTagIsInjective(a: Alternative, b: Alternative)
    requires AltTag(a) == AltTag(b)
    ensures a == b
  {
  }

  /** What the outermost length counts. */
  function ContentSize(t: Tree): nat {
    TlvSize(|t.id|) + TlvSize(TlvSize(ValuesSize(t.values)))
  }

  lemma TreeRoundTrip(t: Tree)
    requires WellTyped(t) && ContentSize(t) < MAX_SIZE
    ensures ParseTree(TreeDer(t)) == Some(t)
  {
    var choice := Tlv(AltTag(t.alt), Tlv(TAG_SEQUENCE, ValuesDer(Schema(t.alt), t.values)));
    ChoiceRoundTrip(t.alt, t.values);
    TlvRoundTrip(TAG_INTEGER, t.id, choice);
    TlvRoundTrip(TAG_SEQUENCE, Tlv(TAG_INTEGER, t.id) + choice, []);
    assert TreeDer(t) + [] == TreeDer(t);
  }

  // ---------- the parser accepts encodings only ----------

  lemma {:induction false} ItemsCanonical(bs: bytes)
    requires ParseItems(bs).Some?
    ensures ItemsDer(ParseItems(bs).value) == bs
    decreases |bs|
  {
    if |bs| > 0 {
      TlvCanonical(TAG_UTF8_STRING, bs);
      var (item, rest) := ParseTlv(TAG_UTF8_STRING, bs).value;
      ItemsCanonical(rest);
      assert ParseItems(bs).value[1..] == ParseItems(rest).value;
    }
  }

  lemma ValueCanonical(kind: Kind, bs: bytes)
    requires ParseValue(kind, bs).Some?
    ensures var (v, rest) := ParseValue(kind, bs).value; bs == ValueDer(kind, v) + rest
  {
    match kind
    case INTEGER => TlvCanonical(TAG_INTEGER, bs);
    case OCTET_STRING => TlvCanonical(TAG_OCTET_STRING, bs);
    case SEQUENCE_OF_UTF8 =>
      TlvCanonical(TAG_SEQUENCE, bs);
      ItemsCanonical(ParseTlv(TAG_SEQUENCE, bs).value.0);
  }

  lemma {:induction false} ValuesCanonical(cs: seq<Component>, bs: bytes)
    requires ParseValues(cs, bs).Some?
    ensures ValuesDer(cs, ParseValues(cs, bs).value) == bs
    decreases |cs|
  {
    if |cs| > 0 {
      ValueCanonical(cs[0].kind, bs);
      var (v, rest) := ParseValue(cs[0].kind, bs).value;
      ValuesCanonical(cs[1..], rest);
      assert ParseValues(cs, bs).value[1..] == ParseValues(cs[1..], rest).value;
    }
  }

  lemma ChoiceCanonical(bs: bytes)
    requires ParseChoice(bs).Some?
    ensures var (alt, vs) := ParseChoice(bs).value;
      bs == Tlv(AltTag(alt), Tlv(TAG_SEQUENCE, ValuesDer(Schema(alt), vs)))
  {
    TlvCanonical(bs[0], bs);
    var sequence := ParseTlv(bs[0], bs).value.0;
    TlvCanonical(TAG_SEQUENCE, sequence);
    var fields := ParseTlv(TAG_SEQUENCE, sequence).value.0;
    ValuesCanonical(Schema(AltOfTag(bs[0]).value), fields);
    assert sequence == Tlv(TAG_SEQUENCE, fields) + [] == Tlv(TAG_SEQUENCE, fields);
    assert bs == Tlv(bs[0], sequence) + [] == Tlv(bs[0], sequence);
  }

  lemma TreeCanonical(bs: bytes)
    requires ParseTree(bs).Some?
    ensures TreeDer(ParseTree(bs).value) == bs
  {
    TlvCanonical(TAG_SEQUENCE, bs);
    var packet := ParseTlv(TAG_SEQUENCE, bs).value.0;
    TlvCanonical(TAG_INTEGER, packet);
    ChoiceCanonical(ParseTlv(TAG_INTEGER, packet).value.1);
    assert bs == Tlv(TAG_SEQUENCE, packet) + [] == Tlv(TAG_SEQUENCE, packet);
  }

  lemma AcceptedContentFits(bs: bytes)
    requires ParseTree(bs).Some?
    ensures ContentSize(ParseTree(bs).value) < MAX_SIZE
  {
    TlvCanonical(TAG_SEQUENCE, bs);
    var packet := ParseTlv(TAG_SEQUENCE, bs).value.0;
    TlvCanonical(TAG_INTEGER, packet);
    ChoiceCanonical(ParseTlv(TAG_INTEGER, packet).value.1);
  }

  /** These octets are the DER encoding of some filled-in Packet, its length an int. */
  ghost predicate IsEncoding(bs: bytes) {
    exists t: Tree :: IsEncodingOf(t, bs)
  }

  ghost predicate IsEncodingOf(t: Tree, bs: bytes) {
    WellTyped(t) && ContentSize(t) < 0x8000_0000 && TreeDer(t) == bs
  }

  lemma AcceptedIsEncoded(bs: bytes)
    requires ParseTree(bs).Some?
    ensures IsEncodingOf(ParseTree(bs).value, bs)
  {
    TreeCanonical(bs);
    AcceptedContentFits(bs);
  }

  /** The accepted byte strings are exactly the encodings. */
  lemma AcceptsExactlyEncodings(bs: bytes)
    ensures ParseTree(bs).Some? <==> IsEncoding(bs)
    ensures forall t: Tree :: IsEncodingOf(t, bs) ==> ParseTree(bs) == Some(t)
  {
    if ParseTree(bs).Some? {
      AcceptedIsEncoded(bs);
    }
    forall t: Tree | IsEncodingOf(t, bs) ensures ParseTree(bs) == Some(t) {
      TreeRoundTrip(t);
    }
  }

  /** No encoding is a proper prefix of another: what follows cannot be mistaken for it. */
  lemma PrefixFree(t: Tree, u: Tree, x: bytes, y: bytes)
    requires WellTyped(t) && TreeSize(t) < MAX_SIZE
    requires WellTyped(u) && TreeSize(u) < MAX_SIZE
    requires TreeDer(t) + x == TreeDer(u) + y
    ensures t == u && x == y
  {
    var p, q := ParseTlv(TAG_SEQUENCE, TreeDer(t)), ParseTlv(TAG_SEQUENCE, TreeDer(u));
    TreeRoundTrip(t);
    TreeRoundTrip(u);
    TlvCanonical(TAG_SEQUENCE, TreeDer(t));
    TlvCanonical(TAG_SEQUENCE, TreeDer(u));
    TlvRoundTrip(TAG_SEQUENCE, p.value.0, x);
    TlvRoundTrip(TAG_SEQUENCE, q.value.0, y);
    assert TreeDer(t) == Tlv(TAG_SEQUENCE, p.value.0) by {
      assert Tlv(TAG_SEQUENCE, p.value.0) + [] == Tlv(TAG_SEQUENCE, p.value.0);
    }
    assert TreeDer(u) == Tlv(TAG_SEQUENCE, q.value.0) by {
      assert Tlv(TAG_SEQUENCE, q.value.0) + [] == Tlv(TAG_SEQUENCE, q.value.0);
    }
  }
}
