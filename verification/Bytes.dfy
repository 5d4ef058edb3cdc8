/** Octets and big-endian numbers. */
module Bytes {
  type byte = x: int | 0 <= x < 256

  type bytes = seq<byte>

  function Pow256(k: nat): (r: nat)
    ensures r > 0
  {
    if k == 0 then 1 else 256 * Pow256(k - 1)
  }

  lemma Associative<T>(a: seq<T>, b: seq<T>, c: seq<T>)
    ensures a + (b + c) == a + b + c
  {
  }

  /** The number a sequence of octets denotes, most significant octet first. */
  function BigEndian(bs: bytes): (n: nat)
    ensures n < Pow256(|bs|)
  {
    if |bs| == 0 then 0 else BigEndian(bs[..|bs| - 1]) * 256 + bs[|bs| - 1]
  }

  /** The low `width` octets of n, most significant octet first. */
  function Octets(n: nat, width: nat): (bs: bytes)
    ensures |bs| == width
  {
    if width == 0 then [] else Octets(n / 256, width - 1) + [n % 256]
  }

  /** The least number of octets (at least one) that holds n. */
  function Width(n: nat): (w: nat)
    ensures w >= 1
    ensures n < Pow256(w)
    ensures w > 1 ==> Pow256(w - 1) <= n
  {
    if n < 256 then 1 else 1 + Width(n / 256)
  }

  lemma {:induction false} OctetsThenBigEndian(n: nat, width: nat)
    requires n < Pow256(width)
    ensures BigEndian(Octets(n, width)) == n
  {
    if width > 0 {
      OctetsThenBigEndian(n / 256, width - 1);
      var bs := Octets(n, width);
      assert bs[..width - 1] == Octets(n / 256, width - 1);
    }
  }

  lemma {:induction false} BigEndianThenOctets(bs: bytes)
    ensures Octets(BigEndian(bs), |bs|) == bs
  {
    if |bs| > 0 {
      BigEndianThenOctets(bs[..|bs| - 1]);
      assert bs == bs[..|bs| - 1] + [bs[|bs| - 1]];
    }
  }

  lemma {:induction false} BigEndianConcat(a: bytes, b: bytes)
    ensures BigEndian(a + b) == BigEndian(a) * Pow256(|b|) + BigEndian(b)
  {
    if |b| == 0 {
      assert a + b == a;
    } else {
      var init, last := b[..|b| - 1], b[|b| - 1];
      BigEndianConcat(a, init);
      assert (a + b)[..|a + b| - 1] == a + init;
      ShiftIn(BigEndian(a), Pow256(|init|), BigEndian(init), last);
    }
  }

  lemma ShiftIn(x: nat, p: nat, y: nat, last: nat)
    ensures (x * p + y) * 256 + last == x * (256 * p) + (y * 256 + last)
  {
    assert x * (256 * p) == x * p * 256;
  }

  /** With no leading zero octet, the number of octets is the least possible. */
  lemma {:induction false} NoLeadingZeroIsMinimal(bs: bytes)
    requires |bs| > 0 && bs[0] != 0
    ensures Width(BigEndian(bs)) == |bs|
    ensures Pow256(|bs| - 1) <= BigEndian(bs)
  {
    if |bs| == 1 {
      assert BigEndian(bs[..0]) == 0;
    } else {
      NoLeadingZeroIsMinimal(bs[..|bs| - 1]);
    }
  }

  lemma {:induction false} WidthHasNoLeadingZero(n: nat)
    requires n > 0
    ensures Octets(n, Width(n))[0] != 0
  {
    if n >= 256 {
      WidthHasNoLeadingZero(n / 256);
    }
  }

  lemma {:induction false} WidthMonotone(m: nat, n: nat)
    requires m <= n
    ensures Width(m) <= Width(n)
  {
    if n >= 256 && m >= 256 {
      WidthMonotone(m / 256, n / 256);
    }
  }

  lemma {:induction false} WidthIsLeast(n: nat, k: nat)
    requires n > 0 && n < Pow256(k)
    ensures Width(n) <= k
  {
    if k > 0 && n >= 256 {
      WidthIsLeast(n / 256, k - 1);
    }
  }
}
