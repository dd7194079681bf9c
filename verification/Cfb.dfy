/**
  AES in CFB mode with full-block feedback (section 6.3 of NIST SP 800-38A), the
  zero-IV form the outer wrap uses, and leftPad (makecred.go).
 */
module Cfb {
  import opened Wire
  import opened Bits
  import opened Crypto

  const BLOCK := 16

  /** p XORed with the front of the keystream block k. */
  function XorBytes(p: Bytes, k: Block): (r: Bytes)
    requires |p| <= BLOCK
    ensures |r| == |p|
  {
    seq(|p|, i requires 0 <= i < |p| => Xor(p[i], k[i]))
  }

  /** Each keystream block enciphers the previous ciphertext block. */
  function Encrypt(c: Suite, key: Block, prev: Block, p: Bytes): (r: Bytes)
    ensures |r| == |p|
    decreases |p|
  {
    var k := c.aes(key, prev);
    if |p| <= BLOCK then XorBytes(p, k)
    else
      var e := XorBytes(p[..BLOCK], k);
      e + Encrypt(c, key, e, p[BLOCK..])
  }

  function Decrypt(c: Suite, key: Block, prev: Block, e: Bytes): (r: Bytes)
    ensures |r| == |e|
    decreases |e|
  {
    var k := c.aes(key, prev);
    if |e| <= BLOCK then XorBytes(e, k)
    else XorBytes(e[..BLOCK], k) + Decrypt(c, key, e[..BLOCK], e[BLOCK..])
  }

  function AesCFBZeroIV(c: Suite, key: Block, plaintext: Bytes): (r: Bytes)
    ensures |r| == |plaintext|
  {
    Encrypt(c, key, Zeros(BLOCK), plaintext)
  }

  lemma XorBytesTwice(p: Bytes, k: Block)
    requires |p| <= BLOCK
    ensures XorBytes(XorBytes(p, k), k) == p
  {
    forall i | 0 <= i < |p|
      ensures XorBytes(XorBytes(p, k), k)[i] == p[i]
    {
      XorTwice(p[i], k[i]);
    }
  }

  /** Decryption inverts encryption at every length, a partial last block included. */
  lemma {:induction false} DecryptEncrypt(c: Suite, key: Block, prev: Block, p: Bytes)
    ensures Decrypt(c, key, prev, Encrypt(c, key, prev, p)) == p
    decreases |p|
  {
    var k := c.aes(key, prev);
    hide XorBytes;
    if |p| <= BLOCK {
      XorBytesTwice(p, k);
    } else {
      var e := XorBytes(p[..BLOCK], k);
      var rest := Encrypt(c, key, e, p[BLOCK..]);
      XorBytesTwice(p[..BLOCK], k);
      DecryptEncrypt(c, key, e, p[BLOCK..]);
      assert (e + rest)[..BLOCK] == e && (e + rest)[BLOCK..] == rest;
    }
  }

  /** Encryption under one key and IV also inverts decryption, so it is a bijection on each length. */
  lemma {:induction false} EncryptDecrypt(c: Suite, key: Block, prev: Block, e: Bytes)
    ensures Encrypt(c, key, prev, Decrypt(c, key, prev, e)) == e
    decreases |e|
  {
    var k := c.aes(key, prev);
    hide XorBytes;
    if |e| <= BLOCK {
      XorBytesTwice(e, k);
    } else {
      var first := XorBytes(e[..BLOCK], k);
      var rest := Decrypt(c, key, e[..BLOCK], e[BLOCK..]);
      XorBytesTwice(e[..BLOCK], k);
      EncryptDecrypt(c, key, e[..BLOCK], e[BLOCK..]);
      assert (first + rest)[..BLOCK] == first && (first + rest)[BLOCK..] == rest;
    }
  }

  lemma {:induction false} EncryptedOctet(c: Suite, key: Block, prev: Block, p: Bytes, i: nat, start: nat)
    requires i < |p| && start % BLOCK == 0 && start <= i < start + BLOCK
    ensures var e := Encrypt(c, key, prev, p);
            e[i] == Xor(p[i], c.aes(key, if start == 0 then prev else e[start - BLOCK..start])[i - start])
    decreases |p|
  {
    hide Xor;
    if start > 0 {
      var first := XorBytes(p[..BLOCK], c.aes(key, prev));
      var rest := Encrypt(c, key, first, p[BLOCK..]);
      assert Encrypt(c, key, prev, p) == first + rest;
      EncryptedOctet(c, key, first, p[BLOCK..], i - BLOCK, start - BLOCK);
      hide *;
      BehindFirst(first, rest, i, start);
    }
  }

  lemma BehindFirst(first: Block, rest: Bytes, i: nat, start: nat)
    requires start >= BLOCK && start <= i < start + BLOCK && i - BLOCK < |rest|
    ensures (first + rest)[i] == rest[i - BLOCK]
    ensures start == BLOCK ==> (first + rest)[start - BLOCK..start] == first
    ensures start >= 2 * BLOCK ==> (first + rest)[start - BLOCK..start] == rest[start - 2 * BLOCK..start - BLOCK]
  {
  }

  /**
    Every ciphertext octet: the plaintext octet XORed with the enciphered previous
    ciphertext block, the first block's predecessor being sixteen zero octets.
   */
  lemma CiphertextOctet(c: Suite, key: Block, p: Bytes, i: nat)
    requires i < |p|
    ensures var e := AesCFBZeroIV(c, key, p);
            e[i] == Xor(p[i], c.aes(key, if i < 16 then Zeros(16) else e[16 * (i / 16) - 16..16 * (i / 16)])[i % 16])
  {
    EncryptedOctet(c, key, Zeros(BLOCK), p, i, 16 * (i / 16));
    hide Encrypt, Xor;
  }

  // ---------------------------------------------------------------------
  // leftPad
  // ---------------------------------------------------------------------

  function Padded(b: Bytes, n: nat): (r: Bytes)
    ensures |r| == n
  {
    if |b| >= n then b[|b| - n..] else Zeros(n - |b|) + b
  }

  lemma {:induction false} FixedBEOfZero(n: nat)
    ensures FixedBE(0, n) == Zeros(n)
  {
    if n > 0 {
      FixedBEOfZero(n - 1);
    }
  }

  lemma PaddedPush(b: Bytes, n: nat)
    requires n > 0 && b != []
    ensures Padded(b, n) == Padded(b[..|b| - 1], n - 1) + [b[|b| - 1]]
  {
  }

  lemma FixedBEPush(v: nat, last: byte, n: nat)
    requires n > 0
    ensures FixedBE(0x100 * v + last as int, n) == FixedBE(v, n - 1) + [last]
  {
    var w := 0x100 * v + last as int;
    assert w / 0x100 == v && w % 0x100 == last as int;
  }

  /** Padding keeps the number: the result is value(b) mod 256^n in n octets. */
  lemma {:induction false} PaddedValue(b: Bytes, n: nat)
    ensures Padded(b, n) == FixedBE(BigEndian(b), n)
    decreases n
  {
    if n == 0 {
    } else if b == [] {
      FixedBEOfZero(n);
    } else {
      PaddedValue(b[..|b| - 1], n - 1);
      FixedBEPush(BigEndian(b[..|b| - 1]), b[|b| - 1], n);
      PaddedPush(b, n);
    }
  }

  method LeftPad(b: Bytes, n: nat) returns (r: Bytes)
    ensures |r| == n && r == FixedBE(BigEndian(b), n)
  {
    PaddedValue(b, n);
    hide FixedBE, BigEndian;
    var out := new byte[n](_ => 0);
    if |b| >= n {
      forall i | 0 <= i < n {
        out[i] := b[|b| - n + i];
      }
    } else {
      forall i | 0 <= i < |b| {
        out[n - |b| + i] := b[i];
      }
    }
    r := out[..];
    assert r == Padded(b, n);
  }

  /** Leading zero octets do not change what leftPad returns. */
  lemma {:induction false} LeadingZeros(b: Bytes, k: nat)
    ensures BigEndian(Zeros(k) + b) == BigEndian(b)
    decreases |b|, k
  {
    var padded := Zeros(k) + b;
    if b == [] {
      if k > 0 {
        assert padded[..|padded| - 1] == Zeros(k - 1) + b;
        LeadingZeros(b, k - 1);
      }
    } else {
      assert padded[..|padded| - 1] == Zeros(k) + b[..|b| - 1];
      LeadingZeros(b[..|b| - 1], k);
    }
  }

  /** The bytes of a big integer: big-endian, no leading zero octet. */
  function MinimalBE(v: nat): Bytes {
    if v == 0 then [] else MinimalBE(v / 0x100) + [v % 0x100]
  }

  lemma {:induction false} MinimalBEValue(v: nat)
    ensures BigEndian(MinimalBE(v)) == v
  {
    if v > 0 {
      MinimalBEValue(v / 0x100);
      assert MinimalBE(v)[..|MinimalBE(v)| - 1] == MinimalBE(v / 0x100);
    }
  }
}
