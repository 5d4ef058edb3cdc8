/** The integer path: DER INTEGER contents on the way out, bytesToInt on the way in. */
module Integers {
  import opened Bytes

  const TWO_31 := 0x8000_0000
  const TWO_32 := 0x1_0000_0000

  /** The C++ `int`. */
  type int32 = x: int | -0x8000_0000 <= x < 0x8000_0000

  // ---------- DER contents octets (X.690 section 8.3) ----------

  /** Two's complement contents octets of v, as few as possible. */
  function IntContent(v: int): (bs: bytes)
    ensures |bs| > 0
    decreases if v < 0 then -v else v
  {
    if -128 <= v < 128 then [v % 256] else IntContent(v / 256) + [v % 256]
  }

  /** What contents octets denote according to X.690 section 8.3.3. */
  function TwosComplement(bs: bytes): int
    requires |bs| > 0
  {
    BigEndian(bs) - if bs[0] >= 128 then Pow256(|bs|) else 0
  }

  /** X.690 section 8.3.2: the first nine bits are neither all zero nor all one. */
  predicate Minimal(bs: bytes) {
    && |bs| > 0
    && (|bs| > 1 ==> !(bs[0] == 0 && bs[1] < 128) && !(bs[0] == 255 && bs[1] >= 128))
  }

  lemma TwosComplementStep(bs: bytes)
    requires |bs| > 1
    ensures TwosComplement(bs) == TwosComplement(bs[..|bs| - 1]) * 256 + bs[|bs| - 1]
  {
    assert Pow256(|bs|) == 256 * Pow256(|bs| - 1);
  }

  lemma {:induction false} ContentDenotes(v: int)
    ensures TwosComplement(IntContent(v)) == v
    ensures Minimal(IntContent(v))
    decreases if v < 0 then -v else v
  {
    var bs := IntContent(v);
    if -128 <= v < 128 {
      assert BigEndian(bs) == v % 256 by { assert bs[..0] == []; }
      assert Pow256(1) == 256 * Pow256(0);
    } else {
      var init := IntContent(v / 256);
      ContentDenotes(v / 256);
      assert bs[..|bs| - 1] == init;
      TwosComplementStep(bs);
      if |bs| == 2 {
        assert init == [(v / 256) % 256];
      }
    }
  }

  lemma {:induction false} TwosComplementRange(bs: bytes)
    requires Minimal(bs)
    ensures |bs| == 1 <==> -128 <= TwosComplement(bs) < 128
  {
    assert Pow256(1) == 256 * Pow256(0);
    if |bs| == 1 {
      assert bs[..0] == [];
    } else {
      TwosComplementStep(bs);
      var init := bs[..|bs| - 1];
      if |bs| == 2 {
        assert BigEndian(init) == bs[0] by { assert init[..0] == []; }
      } else {
        TwosComplementRange(init);
      }
    }
  }

  /** No two minimal contents denote the same integer. */
  lemma {:induction false} MinimalContentIsUnique(bs: bytes)
    requires Minimal(bs)
    ensures IntContent(TwosComplement(bs)) == bs
  {
    TwosComplementRange(bs);
    if |bs| == 1 {
      assert Pow256(1) == 256 * Pow256(0);
      assert BigEndian(bs) == bs[0] by { assert bs[..0] == []; }
    } else {
      TwosComplementStep(bs);
      var init, last := bs[..|bs| - 1], bs[|bs| - 1];
      MinimalContentIsUnique(init);
      DivMod256(TwosComplement(init), last);
      assert bs == init + [last];
    }
  }

  lemma DivMod256(q: int, r: byte)
    ensures (q * 256 + r) / 256 == q && (q * 256 + r) % 256 == r
  {
  }

  // ---------- bytesToInt ----------

  /** The int whose 32-bit pattern is n modulo 2^32. */
  function Signed32(n: int): int32 {
    var m := n % TWO_32;
    if m < TWO_31 then m else m - TWO_32
  }

  /** What the receiver makes of contents octets: no sign extension, last 32 bits. */
  function ReadInt(bs: bytes): int32 {
    Signed32(BigEndian(bs))
  }

  /** Bitwise inclusive or, bit by bit. */
  function BitOr(x: nat, y: nat): nat {
    if x == 0 && y == 0 then 0
    else (if x % 2 == 1 || y % 2 == 1 then 1 else 0) + 2 * BitOr(x / 2, y / 2)
  }

  lemma {:induction false} OrZero(x: nat)
    ensures BitOr(x, 0) == x
  {
    if x > 0 { OrZero(x / 2); }
  }

  function Pow2(k: nat): (r: nat) ensures r > 0 {
    if k == 0 then 1 else 2 * Pow2(k - 1)
  }

  /** Filling in cleared low bits is addition. */
  lemma {:induction false} OrFillsClearedBits(x: nat, k: nat, b: nat)
    requires b < Pow2(k)
    ensures BitOr(x * Pow2(k), b) == x * Pow2(k) + b
  {
    if k == 0 {
      OrZero(x);
    } else {
      var high := x * Pow2(k - 1);
      assert x * Pow2(k) == 2 * high;
      OrFillsClearedBits(x, k - 1, b / 2);
      assert (2 * high) / 2 == high && (2 * high) % 2 == 0;
      if x * Pow2(k) != 0 || b != 0 {
        assert BitOr(2 * high, b) == b % 2 + 2 * BitOr(high, b / 2);
      }
    }
  }

  lemma OrByte(x: nat, b: byte)
    ensures BitOr(x * 256, b) == x * 256 + b
  {
    assert Pow2(8) == 256;
    OrFillsClearedBits(x, 8, b);
  }

  lemma Remainder(k: nat, r: nat)
    requires r < TWO_32
    ensures (k * TWO_32 + r) % TWO_32 == r
  {
  }

  /** One turn of the loop, on 32-bit patterns. */
  lemma ShiftOrStep(n: nat, b: byte)
    ensures BitOr(((n % TWO_32) * 256) % TWO_32, b) == (n * 256 + b) % TWO_32
  {
    var k, pattern := n / TWO_32, n % TWO_32;
    var j, q := pattern / 0x100_0000, pattern % 0x100_0000;
    calc {
      BitOr((pattern * 256) % TWO_32, b);
      { assert pattern * 256 == j * TWO_32 + q * 256; Remainder(j, q * 256); }
      BitOr(q * 256, b);
      { OrByte(q, b); }
      q * 256 + b;
      { Remainder(256 * k + j, q * 256 + b); }
      ((256 * k + j) * TWO_32 + (q * 256 + b)) % TWO_32;
      { assert n == k * TWO_32 + j * 0x100_0000 + q; }
      (n * 256 + b) % TWO_32;
    }
  }

  /** Shifts and ors the first `size` bytes into a 32-bit int, wrapping. */
  method BytesToInt(bytes: bytes, size: nat) returns (result: int32)
    requires size <= |bytes|
    ensures result == ReadInt(bytes[..size])
  {
    var pattern: nat := 0;
    for index := 0 to size
      invariant pattern == BigEndian(bytes[..index]) % TWO_32
    {
      ShiftOrStep(BigEndian(bytes[..index]), bytes[index]);
      assert bytes[..index + 1][..index] == bytes[..index];
      pattern := (pattern * 256) % TWO_32;
      pattern := BitOr(pattern, bytes[index]);
    }
    result := if pattern < TWO_31 then pattern else pattern - TWO_32;
  }

  /** Only the last four octets reach the result. */
  lemma LastFourOctetsDecide(high: bytes, low: bytes)
    requires |low| == 4
    ensures ReadInt(high + low) == ReadInt(low)
  {
    BigEndianConcat(high, low);
    assert Pow256(4) == TWO_32;
    MultipleVanishes(BigEndian(high), BigEndian(low));
  }

  lemma MultipleVanishes(k: nat, n: nat)
    ensures (k * TWO_32 + n) % TWO_32 == n % TWO_32
  {
  }

  // ---------- the path as a whole ----------

  /** An int after one trip through encoder and decoder. */
  function NormInt(v: int32): int32 {
    ReadInt(IntContent(v))
  }

  lemma ContentStep(v: int)
    ensures |IntContent(v)| == if -128 <= v < 128 then 1 else 1 + |IntContent(v / 256)|
  {
  }

  /** How many octets an int takes. */
  lemma ContentLength(v: int32)
    ensures |IntContent(v)| ==
      if -0x80 <= v < 0x80 then 1 else if -0x8000 <= v < 0x8000 then 2
      else if -0x80_0000 <= v < 0x80_0000 then 3 else 4
  {
    hide IntContent;
    ContentStep(v);
    ContentStep(v / 256);
    ContentStep(v / 256 / 256);
    ContentStep(v / 256 / 256 / 256);
  }

  lemma ContentOfInt32(v: int32)
    ensures 1 <= |IntContent(v)| <= 4
    ensures |IntContent(v)| == 4 <==> (v < -0x80_0000 || v >= 0x80_0000)
    ensures BigEndian(IntContent(v)) == if v < 0 then v + Pow256(|IntContent(v)|) else v
  {
    hide IntContent;
    ContentLength(v);
    ContentDenotes(v);
    FirstOctetIsSign(v);
  }

  lemma {:induction false} FirstOctetIsSign(v: int)
    ensures IntContent(v)[0] >= 128 <==> v < 0
    decreases if v < 0 then -v else v
  {
    if !(-128 <= v < 128) { FirstOctetIsSign(v / 256); }
  }

  /** Negative ints of at most three octets come back positive. */
  lemma ShortNegativesChange(v: int32)
    requires -0x80_0000 <= v < 0
    ensures NormInt(v) == v + Pow256(|IntContent(v)|) > 0
  {
    ContentOfInt32(v);
    SmallPowers();
    assert |IntContent(v)| == 1 || |IntContent(v)| == 2 || |IntContent(v)| == 3;
  }

  /** Exactly the ints that survive, and what becomes of the others. */
  lemma IntegerPathDomain(v: int32)
    ensures NormInt(v) == v <==> v >= 0 || v < -0x80_0000
    ensures NormInt(v) != v ==> NormInt(v) == v + Pow256(|IntContent(v)|) >= 0
  {
    if -0x80_0000 <= v < 0 {
      ShortNegativesChange(v);
    } else {
      ContentOfInt32(v);
      SmallPowers();
    }
  }

  /** An int that does not survive comes back one octet longer. */
  lemma LostSignTakesAnOctet(v: int32)
    ensures |IntContent(NormInt(v))| == |IntContent(v)| + if -0x80_0000 <= v < 0 then 1 else 0
  {
    hide NormInt, IntContent;
    IntegerPathDomain(v);
    ContentLength(v);
    ContentLength(NormInt(v));
    SmallPowers();
  }

  lemma SmallPowers()
    ensures Pow256(0) == 1 && Pow256(1) == 256 && Pow256(2) == 0x1_0000
    ensures Pow256(3) == 0x100_0000 && Pow256(4) == TWO_32
  {
  }

  lemma NormIntIdempotent(v: int32)
    ensures NormInt(NormInt(v)) == NormInt(v)
  {
    IntegerPathDomain(v);
    IntegerPathDomain(NormInt(v));
  }

  /**
   * When a DER INTEGER of any length reads as -1, the value the receivers take for
   * "no packet": it must have at least five octets, the last four all ones.
   */
  lemma ReadsAsMinusOne(bs: bytes)
    requires Minimal(bs)
    ensures ReadInt(bs) == -1 <==> |bs| >= 5 && bs[|bs| - 4..] == [255, 255, 255, 255]
  {
    if |bs| >= 4 {
      var high, low := bs[..|bs| - 4], bs[|bs| - 4..];
      assert bs == high + low;
      LastFourOctetsDecide(high, low);
      FourOctetsMinusOne(low);
      assert |bs| == 4 ==> low == bs;
    } else {
      ShortContentIsPositive(bs);
    }
  }

  lemma ShortContentIsPositive(bs: bytes)
    requires |bs| < 4
    ensures ReadInt(bs) >= 0
  {
    SmallPowers();
  }

  lemma FourOctetsMinusOne(low: bytes)
    requires |low| == 4
    ensures ReadInt(low) == -1 <==> low == [255, 255, 255, 255]
  {
    SmallPowers();
    AllOnes();
    BigEndianThenOctets(low);
  }

  lemma AllOnes()
    ensures Octets(TWO_32 - 1, 4) == [255, 255, 255, 255]
    ensures BigEndian([255, 255, 255, 255]) == TWO_32 - 1
  {
    OctetsThenBigEndian(TWO_32 - 1, 4) by { assert Pow256(4) == TWO_32; }
    assert Octets(0xFF, 1) == [255] by { assert Octets(0, 0) == []; }
    assert Octets(0xFFFF, 2) == [255, 255];
    assert Octets(0xFF_FFFF, 3) == [255, 255, 255];
  }

  /** Whatever the sender's id, the receiver never sees the sentinel. */
  lemma SentinelIsUnambiguous(id: int32)
    ensures NormInt(id) != -1
  {
    ContentDenotes(id);
    ContentOfInt32(id);
    ReadsAsMinusOne(IntContent(id));
  }
}
