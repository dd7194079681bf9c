/**
  Bitwise operators on octets, defined bit by bit, and big-endian numbers of a
  fixed width. One generic operator gives OR, AND and XOR; two octets with the
  same eight bits are equal, which is all the proofs about masks and bitmaps need.
 */
module Bits {
  import opened Wire

  /** Bit k of v, least significant first. */
  predicate Bit(v: nat, k: nat) {
    if k == 0 then v % 2 == 1 else Bit(v / 2, k - 1)
  }

  function Pow2(n: nat): (p: nat)
    ensures p > 0
  {
    if n == 0 then 1 else 2 * Pow2(n - 1)
  }

  /** Bit k is the digit of weight 2^k. */
  lemma {:induction false} BitIsDigit(v: nat, k: nat)
    ensures Bit(v, k) == (v / Pow2(k) % 2 == 1)
  {
    if k > 0 {
      BitIsDigit(v / 2, k - 1);
      DivideTwice(v, Pow2(k - 1));
    }
  }

  lemma DivideTwice(v: nat, p: nat)
    requires p > 0
    ensures v / (2 * p) == v / 2 / p
  {
    var q, r := v / 2 / p, v / 2 % p;
    assert v / 2 == p * q + r;
    assert v == (2 * p) * q + (2 * r + v % 2);
    DivModUnique(v, 2 * p, q, 2 * r + v % 2);
  }

  function Digit(b: bool): nat {
    if b then 1 else 0
  }

  /** The low n bits of a and b combined by op. */
  function Bitwise(op: (bool, bool) -> bool, a: nat, b: nat, n: nat): (r: nat)
    ensures r < Pow2(n)
  {
    if n == 0 then 0
    else Digit(op(a % 2 == 1, b % 2 == 1)) + 2 * Bitwise(op, a / 2, b / 2, n - 1)
  }

  lemma {:induction false} BitwiseBit(op: (bool, bool) -> bool, a: nat, b: nat, n: nat, k: nat)
    requires k < n
    ensures Bit(Bitwise(op, a, b, n), k) == op(Bit(a, k), Bit(b, k))
  {
    if k > 0 {
      BitwiseBit(op, a / 2, b / 2, n - 1, k - 1);
    }
  }

  lemma {:induction false} SameBits(a: nat, b: nat, n: nat)
    requires a < Pow2(n) && b < Pow2(n)
    requires forall k: nat :: k < n ==> Bit(a, k) == Bit(b, k)
    ensures a == b
  {
    if n > 0 {
      assert Bit(a, 0) == Bit(b, 0);
      forall k: nat | k < n - 1
        ensures Bit(a / 2, k) == Bit(b / 2, k)
      {
        assert Bit(a, k + 1) == Bit(b, k + 1);
      }
      SameBits(a / 2, b / 2, n - 1);
    }
  }

  lemma {:induction false} BitOfZero(k: nat)
    ensures !Bit(0, k)
  {
    if k > 0 {
      BitOfZero(k - 1);
    }
  }

  lemma {:induction false} BitOfPow2(n: nat, k: nat)
    ensures Bit(Pow2(n), k) == (k == n)
  {
    if n == 0 {
      if k > 0 {
        BitOfZero(k - 1);
      }
    } else if k > 0 {
      BitOfPow2(n - 1, k - 1);
    }
  }

  lemma Pow2Is256()
    ensures Pow2(8) == 0x100
  {
    assert Pow2(4) == 16;
    assert Pow2(8) == 2 * (2 * (2 * (2 * Pow2(4))));
  }

  function Or(a: byte, b: byte): byte {
    Pow2Is256();
    Bitwise((x, y) => x || y, a, b, 8)
  }

  function And(a: byte, b: byte): byte {
    Pow2Is256();
    Bitwise((x, y) => x && y, a, b, 8)
  }

  function Xor(a: byte, b: byte): byte {
    Pow2Is256();
    Bitwise((x: bool, y: bool) => x != y, a, b, 8)
  }

  lemma OrBit(a: byte, b: byte, k: nat)
    requires k < 8
    ensures Bit(Or(a, b), k) == (Bit(a, k) || Bit(b, k))
  {
    BitwiseBit((x, y) => x || y, a, b, 8, k);
  }

  lemma AndBit(a: byte, b: byte, k: nat)
    requires k < 8
    ensures Bit(And(a, b), k) == (Bit(a, k) && Bit(b, k))
  {
    BitwiseBit((x, y) => x && y, a, b, 8, k);
  }

  lemma XorBit(a: byte, b: byte, k: nat)
    requires k < 8
    ensures Bit(Xor(a, b), k) == (Bit(a, k) != Bit(b, k))
  {
    BitwiseBit((x: bool, y: bool) => x != y, a, b, 8, k);
  }

  lemma SameOctet(a: byte, b: byte)
    requires forall k: nat :: k < 8 ==> Bit(a, k) == Bit(b, k)
    ensures a == b
  {
    Pow2Is256();
    SameBits(a, b, 8);
  }

  /** XOR with the same keystream octet twice is the identity. */
  lemma XorTwice(a: byte, b: byte)
    ensures Xor(Xor(a, b), b) == a
  {
    forall k: nat | k < 8
      ensures Bit(Xor(Xor(a, b), b), k) == Bit(a, k)
    {
      XorBit(Xor(a, b), b, k);
      XorBit(a, b, k);
    }
    SameOctet(Xor(Xor(a, b), b), a);
  }

  lemma {:induction false} Pow2Le(s: nat, n: nat)
    requires s <= n
    ensures Pow2(s) <= Pow2(n)
  {
    if s < n {
      Pow2Le(s, n - 1);
    }
  }

  /** The octet 0xFF << s, keeping its low eight bits. */
  function HighMask(s: nat): byte
    requires s <= 8
  {
    Pow2Le(s, 8);
    Pow2Is256();
    Pow2(8) - Pow2(s)
  }

  lemma {:induction false} RunOfOnes(s: nat, n: nat, k: nat)
    requires s <= n
    ensures Pow2(s) <= Pow2(n)
    ensures Bit(Pow2(n) - Pow2(s), k) == (s <= k < n)
  {
    Pow2Le(s, n);
    if s == n {
      BitOfZero(k);
    } else if s > 0 {
      Pow2Le(s - 1, n - 1);
      if k > 0 {
        RunOfOnes(s - 1, n - 1, k - 1);
        assert (Pow2(n) - Pow2(s)) / 2 == Pow2(n - 1) - Pow2(s - 1);
      }
    } else if k > 0 {
      RunOfOnes(0, n - 1, k - 1);
      assert (Pow2(n) - 1) / 2 == Pow2(n - 1) - 1;
    }
  }

  /** Masking with 0xFF << s clears exactly the low s bits. */
  lemma MaskedBit(a: byte, s: nat, k: nat)
    requires s <= 8 && k < 8
    ensures Bit(And(a, HighMask(s)), k) == (Bit(a, k) && s <= k)
  {
    AndBit(a, HighMask(s), k);
    RunOfOnes(s, 8, k);
  }

  /** Number with big-endian octets b. */
  function BigEndian(b: Bytes): nat {
    if b == [] then 0 else 0x100 * BigEndian(b[..|b| - 1]) + b[|b| - 1] as int
  }

  /** v modulo 256^n as n big-endian octets. */
  function FixedBE(v: nat, n: nat): (b: Bytes)
    ensures |b| == n
  {
    if n == 0 then [] else FixedBE(v / 0x100, n - 1) + [v % 0x100]
  }

  function Pow256(n: nat): (p: nat)
    ensures p > 0
  {
    if n == 0 then 1 else 0x100 * Pow256(n - 1)
  }

  lemma {:induction false} FixedBEValue(v: nat, n: nat)
    ensures BigEndian(FixedBE(v, n)) == v % Pow256(n)
  {
    if n > 0 {
      var b := FixedBE(v, n);
      assert b[..|b| - 1] == FixedBE(v / 0x100, n - 1);
      FixedBEValue(v / 0x100, n - 1);
      ModSplit(v, Pow256(n - 1));
    }
  }

  lemma ModSplit(v: nat, p: nat)
    requires p > 0
    ensures v % (0x100 * p) == 0x100 * (v / 0x100 % p) + v % 0x100
  {
    var q, r := v / 0x100 / p, v / 0x100 % p;
    var low := 0x100 * r + v % 0x100;
    assert v / 0x100 == p * q + r;
    assert v == (0x100 * p) * q + low;
    assert 0 <= low < 0x100 * p;
    DivModUnique(v, 0x100 * p, q, low);
  }

  lemma DivModUnique(v: nat, m: nat, q: nat, r: nat)
    requires m > 0 && r < m && v == m * q + r
    ensures v / m == q && v % m == r
  {
    var d := v / m - q;
    MulSign(m, d);
    assert m * d == r - v % m;
  }

  lemma MulSign(m: nat, d: int)
    ensures d > 0 ==> m * d >= m
    ensures d < 0 ==> m * d <= -(m as int)
  {
  }

  lemma FixedBERead(v: nat, n: nat)
    requires v < Pow256(n)
    ensures BigEndian(FixedBE(v, n)) == v
  {
    FixedBEValue(v, n);
  }
}
