/** Bytes, big-endian numbers and the byte-wise exclusive or, shared by the wire codecs. */
module Bytes {

  /** An octet. Kept as an integer so that header fields are plain arithmetic. */
  type byte = i: int | 0 <= i < 256

  const TWO_31: int := 0x8000_0000
  const TWO_32: int := 0x1_0000_0000
  const TWO_63: int := 0x8000_0000_0000_0000
  const TWO_64: int := 0x1_0000_0000_0000_0000

  /** The C++ conversion of an integer to `int` (32 bits, two's complement). */
  function ToInt32(n: int): int {
    var low := n % TWO_32;
    if low < TWO_31 then low else low - TWO_32
  }

  function Pow2(n: nat): (p: nat)
    ensures p >= 1
  {
    if n == 0 then 1 else 2 * Pow2(n - 1)
  }

  /** Exclusive or of the `n` low-order bits. */
  function XorBits(n: nat, a: nat, b: nat): (r: nat)
    ensures r < Pow2(n)
  {
    if n == 0 then 0
    else 2 * XorBits(n - 1, a / 2, b / 2) + (if a % 2 == b % 2 then 0 else 1)
  }

  function Xor(a: byte, b: byte): byte {
    assert Pow2(8) == 256;
    XorBits(8, a, b)
  }

  lemma {:induction false} XorBitsTwice(n: nat, a: nat, b: nat)
    requires a < Pow2(n)
    ensures XorBits(n, XorBits(n, a, b), b) == a
  {
    if n != 0 {
      XorBitsTwice(n - 1, a / 2, b / 2);
    }
  }

  lemma XorTwice(a: byte, b: byte)
    ensures Xor(Xor(a, b), b) == a
  {
    assert Pow2(8) == 256;
    XorBitsTwice(8, a, b);
  }

  /** Bit `i`, the lowest being bit 0. */
  function Bit(a: nat, i: nat): nat {
    a / Pow2(i) % 2
  }

  lemma Regrouped(k: nat, p: nat, q: nat, r: nat)
    ensures k * (q * p + r) == (k * p) * q + k * r
  {
    assert k * (q * p) == (k * p) * q;
  }

  lemma Below(k: nat, p: nat, r: nat, c: nat)
    requires r < p && c < k
    ensures k * r + c < k * p
  {
    assert k * r + k == k * (r + 1);
    assert k * (r + 1) <= k * p;
  }

  lemma Positive(k: nat, p: nat)
    requires k > 0 && p > 0
    ensures k * p > 0
  {
  }

  lemma Divided(b: nat, p: nat, q: nat, r: nat)
    requires p > 0 && q == b / p && r == b % p
    ensures b == q * p + r && r < p
  {
  }

  lemma Assembled(a: nat, k: nat, b: nat, c: nat, p: nat, q: nat, r: nat, d: nat, e: nat)
    requires a == k * b + c && b == q * p + r && d == k * p && e == k * r + c
    ensures a == d * q + e
  {
    Regrouped(k, p, q, r);
  }

  lemma DivTwice(a: nat, k: nat, p: nat)
    requires k > 0 && p > 0
    ensures k * p > 0 && a / (k * p) == a / k / p
  {
    Positive(k, p);
    var b, c, d := a / k, a % k, k * p;
    var q, r := b / p, b % p;
    var e := k * r + c;
    Divided(a, k, b, c);
    Divided(b, p, q, r);
    Below(k, p, r, c);
    Assembled(a, k, b, c, p, q, r, d, e);
    Quotient(a, d, q, e);
  }

  lemma Quotient(a: nat, d: nat, q: nat, r: nat)
    requires a == d * q + r && r < d
    ensures a / d == q
  {
    var k := a / d;
    assert k < q ==> d * (k + 1) <= d * q;
    assert k > q ==> d * k >= d * (q + 1);
  }

  lemma BitOfHalf(a: nat, i: nat)
    ensures Bit(a, i + 1) == Bit(a / 2, i)
  {
    DivTwice(a, 2, Pow2(i));
  }

  lemma LowestBit(a: nat)
    ensures Bit(a, 0) == a % 2
  {
    assert Pow2(0) == 1;
  }

  lemma XorHalf(n: nat, a: nat, b: nat, x: nat)
    requires n > 0 && x == XorBits(n, a, b)
    ensures x / 2 == XorBits(n - 1, a / 2, b / 2) && (x % 2 == 1 <==> a % 2 != b % 2)
  {
  }

  lemma {:induction false} XorBit(n: nat, a: nat, b: nat, i: nat)
    requires i < n
    ensures Bit(XorBits(n, a, b), i) == 1 <==> Bit(a, i) != Bit(b, i)
  {
    var x := XorBits(n, a, b);
    XorHalf(n, a, b, x);
    if i == 0 {
      LowestBit(a);
      LowestBit(b);
      LowestBit(x);
    } else {
      BitOfHalf(a, i - 1);
      BitOfHalf(b, i - 1);
      BitOfHalf(x, i - 1);
      XorBit(n - 1, a / 2, b / 2, i - 1);
    }
  }

  /** Bit by bit, `r` is set where exactly one of `a` and `b` is. */
  predicate BitsDiffer(a: byte, b: byte, r: byte) {
    forall i | 0 <= i < 8 :: Bit(r, i) == 1 <==> Bit(a, i) != Bit(b, i)
  }

  lemma XorIsExclusive(a: byte, b: byte)
    ensures BitsDiffer(a, b, Xor(a, b))
  {
    assert Pow2(8) == 256;
    forall i | 0 <= i < 8
      ensures Bit(Xor(a, b), i) == 1 <==> Bit(a, i) != Bit(b, i)
    {
      XorBit(8, a, b, i);
    }
  }

  lemma {:induction false} BitsDecide(n: nat, a: nat, b: nat)
    requires a < Pow2(n) && b < Pow2(n) && forall i | 0 <= i < n :: Bit(a, i) == Bit(b, i)
    ensures a == b
  {
    if n > 0 {
      assert Pow2(0) == 1 && Bit(a, 0) == Bit(b, 0);
      forall i | 0 <= i < n - 1
        ensures Bit(a / 2, i) == Bit(b / 2, i)
      {
        BitOfHalf(a, i);
        BitOfHalf(b, i);
        assert Bit(a, i + 1) == Bit(b, i + 1);
      }
      BitsDecide(n - 1, a / 2, b / 2);
    }
  }

  /** Nothing but the exclusive or has these bits. */
  lemma ExclusiveIsXor(a: byte, b: byte, r: byte)
    ensures BitsDiffer(a, b, r) <==> r == Xor(a, b)
  {
    XorIsExclusive(a, b);
    if BitsDiffer(a, b, r) {
      assert Pow2(8) == 256;
      forall i | 0 <= i < 8
        ensures Bit(r, i) == Bit(Xor(a, b), i)
      {
        assert Bit(r, i) == 1 <==> Bit(Xor(a, b), i) == 1;
      }
      BitsDecide(8, r, Xor(a, b));
    }
  }

  function Pow256(n: nat): (p: nat)
    ensures p >= 1
  {
    if n == 0 then 1 else 256 * Pow256(n - 1)
  }

  /** The `n` low-order octets of `v`, most significant first (network order). */
  function BigEndian(n: nat, v: nat): (s: seq<byte>)
    ensures |s| == n
  {
    if n == 0 then [] else BigEndian(n - 1, v / 256) + [v % 256]
  }

  function FromBigEndian(s: seq<byte>): nat {
    if s == [] then 0 else 256 * FromBigEndian(s[..|s| - 1]) + s[|s| - 1]
  }

  lemma {:induction false} FromBigEndianBound(s: seq<byte>)
    ensures FromBigEndian(s) < Pow256(|s|)
  {
    if s != [] {
      FromBigEndianBound(s[..|s| - 1]);
    }
  }

  lemma {:induction false} BigEndianRoundTrip(n: nat, v: nat)
    requires v < Pow256(n)
    ensures FromBigEndian(BigEndian(n, v)) == v
  {
    if n != 0 {
      var s := BigEndian(n, v);
      assert s[..|s| - 1] == BigEndian(n - 1, v / 256);
      BigEndianRoundTrip(n - 1, v / 256);
    }
  }

  lemma {:induction false} BigEndianInverse(s: seq<byte>)
    ensures BigEndian(|s|, FromBigEndian(s)) == s
  {
    if s != [] {
      var hi := s[..|s| - 1];
      BigEndianInverse(hi);
      assert FromBigEndian(s) / 256 == FromBigEndian(hi);
      assert s == hi + [s[|s| - 1]];
    }
  }

  lemma Pow256Step(n: nat, v: nat)
    ensures v / Pow256(n + 1) == v / 256 / Pow256(n)
  {
    DivTwice(v, 256, Pow256(n));
  }

  /** Octet `i` carries the digit of 256^(n - 1 - i): the most significant one comes first. */
  lemma {:induction false} BigEndianAt(n: nat, v: nat, i: nat)
    requires i < n
    ensures BigEndian(n, v)[i] == v / Pow256(n - 1 - i) % 256
  {
    if i < n - 1 {
      BigEndianAt(n - 1, v / 256, i);
      Pow256Step(n - 2 - i, v);
    } else {
      assert Pow256(0) == 1;
    }
  }
}
