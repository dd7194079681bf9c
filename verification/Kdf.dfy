/**
  The two key-derivation functions of Credential Protection and Duplication,
  KDFa and KDFe with SHA-256 (kdf.go): counter loops that grow the output one
  digest at a time, truncate it and mask the last octet.
 */
module Kdf {
  import opened Wire
  import opened Bits
  import opened Crypto

  /** "IDENTITY", "DUPLICATE", "STORAGE" and "INTEGRITY" in ASCII. */
  const LABEL_IDENTITY: Bytes := [0x49, 0x44, 0x45, 0x4E, 0x54, 0x49, 0x54, 0x59]
  const LABEL_DUPLICATE: Bytes := [0x44, 0x55, 0x50, 0x4C, 0x49, 0x43, 0x41, 0x54, 0x45]
  const LABEL_STORAGE: Bytes := [0x53, 0x54, 0x4F, 0x52, 0x41, 0x47, 0x45]
  const LABEL_INTEGRITY: Bytes := [0x49, 0x4E, 0x54, 0x45, 0x47, 0x52, 0x49, 0x54, 0x59]

  /** The label followed by one NUL, unless it already ends in one. */
  function LabelBytes(lbl: Bytes): Bytes {
    if lbl == [] || lbl[|lbl| - 1] != 0 then lbl + [0] else lbl
  }

  /** The arguments of one derivation: KDFa's are MACed under key, KDFe's hashed. */
  datatype Source =
    | KdfA(key: Bytes, lbl: Bytes, contextU: Bytes, contextV: Bytes, bits: nat)
    | KdfE(z: Bytes, lbl: Bytes, partyU: Bytes, partyV: Bytes)

  /** What block number ctr hashes. */
  function Input(s: Source, ctr: U32): Bytes {
    match s
    case KdfA(_, lbl, u, v, bits) =>
      BE32(ctr) + (LabelBytes(lbl) + (u + (v + BE32(bits % 0x1_0000_0000))))
    case KdfE(z, lbl, u, v) =>
      BE32(ctr) + (z + (LabelBytes(lbl) + (u + v)))
  }

  function BlockAt(c: Suite, s: Source, ctr: U32): (d: Digest)
    ensures |d| == 32
  {
    if s.KdfA? then c.Mac(s.key, Input(s, ctr)) else c.Sha(Input(s, ctr))
  }

  /** Counters start at 1 and wrap like a uint32. */
  function Counter(block: nat): U32 {
    (block + 1) % 0x1_0000_0000
  }

  /** Octet j of the concatenation of all blocks. */
  function StreamOctet(c: Suite, s: Source, j: nat): byte {
    BlockAt(c, s, Counter(j / 32))[j % 32]
  }

  function OctetsFor(bits: nat): nat {
    (bits + 7) / 8
  }

  /** The leftmost `bits` bits of the stream, the unused bits of the last octet zero. */
  function Derive(c: Suite, s: Source, bits: nat): (r: Bytes)
    ensures |r| == OctetsFor(bits)
  {
    seq(OctetsFor(bits), j requires 0 <= j =>
      if bits % 8 != 0 && j == bits / 8 then And(StreamOctet(c, s, j), HighMask(8 - bits % 8))
      else StreamOctet(c, s, j))
  }

  function KDFaSpec(c: Suite, key: Bytes, lbl: Bytes, contextU: Bytes, contextV: Bytes, bits: nat): (r: Bytes)
    ensures |r| == OctetsFor(bits)
  {
    Derive(c, KdfA(key, lbl, contextU, contextV, bits), bits)
  }

  function KDFeSpec(c: Suite, z: Bytes, lbl: Bytes, partyU: Bytes, partyV: Bytes, bits: nat): (r: Bytes)
    ensures |r| == OctetsFor(bits)
  {
    Derive(c, KdfE(z, lbl, partyU, partyV), bits)
  }

  /** out holds the first k blocks of the stream. */
  ghost predicate Blocks(c: Suite, s: Source, out: Bytes, k: nat) {
    |out| == 32 * k && forall j: nat :: j < |out| ==> out[j] == StreamOctet(c, s, j)
  }

  lemma NextBlock(c: Suite, s: Source, out: Bytes, k: nat)
    requires Blocks(c, s, out, k)
    ensures Blocks(c, s, out + BlockAt(c, s, Counter(k)), k + 1)
  {
    var more := out + BlockAt(c, s, Counter(k));
    hide BlockAt, Counter;
    forall j: nat | j < |more|
      ensures more[j] == StreamOctet(c, s, j)
    {
      if j >= |out| {
        assert j / 32 == k && j % 32 == j - |out|;
      }
    }
  }

  /** The last octet ANDed with 0xFF << (8 - bits % 8) when bits is not a multiple of 8. */
  function Masked(out: Bytes, bits: nat): Bytes
    requires |out| == OctetsFor(bits)
  {
    if bits % 8 == 0 then out
    else out[|out| - 1 := And(out[|out| - 1], HighMask(8 - bits % 8))]
  }

  /** Truncating the blocks and masking the last octet is the derivation. */
  lemma Truncated(c: Suite, s: Source, out: Bytes, k: nat, bits: nat)
    requires Blocks(c, s, out, k) && OctetsFor(bits) <= |out|
    ensures Masked(out[..OctetsFor(bits)], bits) == Derive(c, s, bits)
  {
    hide StreamOctet, And, HighMask;
  }

  method MaskExcess(out: Bytes, bits: nat) returns (r: Bytes)
    requires |out| == OctetsFor(bits)
    ensures r == Masked(out, bits)
  {
    r := out;
    var rem := bits % 8;
    if rem != 0 {
      r := r[|r| - 1 := And(r[|r| - 1], HighMask(8 - rem))];
    }
  }

  lemma CounterNext(k: nat)
    ensures Counter(0) == 1
    ensures (Counter(k) + 1) % 0x1_0000_0000 == Counter(k + 1)
  {
  }

  method KDFa(c: Suite, key: Bytes, lbl: Bytes, contextU: Bytes, contextV: Bytes, bits: nat) returns (out: Bytes)
    ensures out == KDFaSpec(c, key, lbl, contextU, contextV, bits)
  {
    ghost var s := KdfA(key, lbl, contextU, contextV, bits);
    CounterNext(0);
    var lab := LabelBytes(lbl);
    var bitsBE := BE32(bits % 0x1_0000_0000);
    var outLen := (bits + 7) / 8;
    assert outLen == OctetsFor(bits) && KDFaSpec(c, key, lbl, contextU, contextV, bits) == Derive(c, s, bits);
    out := [];
    var ctr: U32 := 1;
    ghost var k := 0;
    assert Blocks(c, s, out, k);
    hide *;
    while |out| < outLen
      invariant ctr == Counter(k) && |out| == 32 * k && Blocks(c, s, out, k)
      decreases outLen - |out|
    {
      var block := c.Mac(key, BE32(ctr) + (lab + (contextU + (contextV + bitsBE))));
      NextBlock(c, s, out, k);
      CounterNext(k);
      out := out + block;
      ctr := (ctr + 1) % 0x1_0000_0000;
      k := k + 1;
    }
    Truncated(c, s, out, k, bits);
    out := MaskExcess(out[..outLen], bits);
  }

  method KDFe(c: Suite, z: Bytes, lbl: Bytes, partyU: Bytes, partyV: Bytes, bits: nat) returns (out: Bytes)
    ensures out == KDFeSpec(c, z, lbl, partyU, partyV, bits)
  {
    ghost var s := KdfE(z, lbl, partyU, partyV);
    CounterNext(0);
    var lab := LabelBytes(lbl);
    var outLen := (bits + 7) / 8;
    assert outLen == OctetsFor(bits) && KDFeSpec(c, z, lbl, partyU, partyV, bits) == Derive(c, s, bits);
    out := [];
    var ctr: U32 := 1;
    ghost var k := 0;
    assert Blocks(c, s, out, k);
    hide *;
    while |out| < outLen
      invariant ctr == Counter(k) && |out| == 32 * k && Blocks(c, s, out, k)
      decreases outLen - |out|
    {
      var block := c.Sha(BE32(ctr) + (z + (lab + (partyU + partyV))));
      NextBlock(c, s, out, k);
      CounterNext(k);
      out := out + block;
      ctr := (ctr + 1) % 0x1_0000_0000;
      k := k + 1;
    }
    Truncated(c, s, out, k, bits);
    out := MaskExcess(out[..outLen], bits);
  }

  // ---------------------------------------------------------------------
  // What a derivation yields
  // ---------------------------------------------------------------------

  /**
    Bit level: counting from the most significant bit of the first octet, the
    first `bits` bits are the stream's and every later bit of the last octet is 0.
   */
  lemma DerivedBit(c: Suite, s: Source, bits: nat, j: nat, k: nat)
    requires j < OctetsFor(bits) && k < 8
    ensures Bit(Derive(c, s, bits)[j], k) == (Bit(StreamOctet(c, s, j), k) && 8 * j + (7 - k) < bits)
  {
    hide Bit, And, HighMask, StreamOctet;
    var octet := StreamOctet(c, s, j);
    var last := bits % 8 != 0 && j == bits / 8;
    assert Derive(c, s, bits)[j] == if last then And(octet, HighMask(8 - bits % 8)) else octet;
    BitPosition(bits, j, k);
    hide *;
    if last {
      MaskedBit(octet, 8 - bits % 8, k);
    }
  }

  lemma BitPosition(bits: nat, j: nat, k: nat)
    requires j < OctetsFor(bits) && k < 8
    ensures if bits % 8 != 0 && j == bits / 8 then 8 - bits % 8 <= k <==> 8 * j + (7 - k) < bits
            else 8 * j + (7 - k) < bits
  {
    var q, r := bits / 8, bits % 8;
    assert bits == 8 * q + r && OctetsFor(bits) == if r == 0 then q else q + 1;
  }

  /**
    The two derivations from the primitives alone. Every bit of the result: block
    j / 32 + 1 of the counter, the label with exactly one NUL behind it (none is
    added to a label that has one), the contexts in order, and for KDFa the bit
    length; bits behind the last one asked for are zero.
   */
  lemma KDFaBit(c: Suite, key: Bytes, lbl: Bytes, u: Bytes, v: Bytes, bits: nat, j: nat, k: nat)
    requires 8 * j < bits && k < 8
    ensures var lab := if lbl != [] && lbl[|lbl| - 1] == 0 then lbl else lbl + [0];
            var block := c.Mac(key, BE32((j / 32 + 1) % 0x1_0000_0000) + (lab + (u + (v + BE32(bits % 0x1_0000_0000)))));
            Bit(KDFaSpec(c, key, lbl, u, v, bits)[j], k) == (Bit(block[j % 32], k) && 8 * j + (7 - k) < bits)
  {
    KDFaStream(c, key, lbl, u, v, bits, j);
    hide LabelBytes, Derive, StreamOctet, Bit, BE32;
    DerivedBit(c, KdfA(key, lbl, u, v, bits), bits, j, k);
  }

  lemma KDFeBit(c: Suite, z: Bytes, lbl: Bytes, u: Bytes, v: Bytes, bits: nat, j: nat, k: nat)
    requires 8 * j < bits && k < 8
    ensures var lab := if lbl != [] && lbl[|lbl| - 1] == 0 then lbl else lbl + [0];
            var block := c.Sha(BE32((j / 32 + 1) % 0x1_0000_0000) + (z + (lab + (u + v))));
            Bit(KDFeSpec(c, z, lbl, u, v, bits)[j], k) == (Bit(block[j % 32], k) && 8 * j + (7 - k) < bits)
  {
    KDFeStream(c, z, lbl, u, v, j);
    hide LabelBytes, Derive, StreamOctet, Bit, BE32;
    DerivedBit(c, KdfE(z, lbl, u, v), bits, j, k);
  }

  lemma KDFaStream(c: Suite, key: Bytes, lbl: Bytes, u: Bytes, v: Bytes, bits: nat, j: nat)
    ensures var lab := if lbl != [] && lbl[|lbl| - 1] == 0 then lbl else lbl + [0];
            StreamOctet(c, KdfA(key, lbl, u, v, bits), j)
            == c.Mac(key, BE32((j / 32 + 1) % 0x1_0000_0000) + (lab + (u + (v + BE32(bits % 0x1_0000_0000)))))[j % 32]
  {
    hide BE32;
  }

  lemma KDFeStream(c: Suite, z: Bytes, lbl: Bytes, u: Bytes, v: Bytes, j: nat)
    ensures var lab := if lbl != [] && lbl[|lbl| - 1] == 0 then lbl else lbl + [0];
            StreamOctet(c, KdfE(z, lbl, u, v), j) == c.Sha(BE32((j / 32 + 1) % 0x1_0000_0000) + (z + (lab + (u + v))))[j % 32]
  {
    hide BE32;
  }

  /** Octet by octet when the length is a whole number of octets. */
  lemma KDFaOctet(c: Suite, key: Bytes, lbl: Bytes, u: Bytes, v: Bytes, bits: nat, j: nat)
    requires 8 * j < bits && bits % 8 == 0
    ensures var lab := if lbl != [] && lbl[|lbl| - 1] == 0 then lbl else lbl + [0];
            KDFaSpec(c, key, lbl, u, v, bits)[j]
            == c.Mac(key, BE32((j / 32 + 1) % 0x1_0000_0000) + (lab + (u + (v + BE32(bits % 0x1_0000_0000)))))[j % 32]
  {
    KDFaStream(c, key, lbl, u, v, bits, j);
    hide LabelBytes, StreamOctet, And, HighMask, BE32;
  }

  lemma KDFeOctet(c: Suite, z: Bytes, lbl: Bytes, u: Bytes, v: Bytes, bits: nat, j: nat)
    requires 8 * j < bits && bits % 8 == 0
    ensures var lab := if lbl != [] && lbl[|lbl| - 1] == 0 then lbl else lbl + [0];
            KDFeSpec(c, z, lbl, u, v, bits)[j] == c.Sha(BE32((j / 32 + 1) % 0x1_0000_0000) + (z + (lab + (u + v))))[j % 32]
  {
    KDFeStream(c, z, lbl, u, v, j);
    hide LabelBytes, StreamOctet, And, HighMask, BE32;
  }

  /** A byte-aligned KDFe output is a prefix of any longer byte-aligned one. */
  lemma KDFePrefix(c: Suite, z: Bytes, lbl: Bytes, u: Bytes, v: Bytes, bits: nat, more: nat)
    requires bits <= more && bits % 8 == 0 && more % 8 == 0
    ensures KDFeSpec(c, z, lbl, u, v, bits) <= KDFeSpec(c, z, lbl, u, v, more)
  {
    hide StreamOctet;
  }

  /** A 256-bit derivation is its first block; a 128-bit one is an AES-128 key. */
  lemma OneBlock(c: Suite, s: Source)
    ensures Derive(c, s, 256) == BlockAt(c, s, 1)
    ensures Derive(c, s, 128) == BlockAt(c, s, 1)[..16]
  {
    hide BlockAt, And, HighMask;
  }

  // ---------------------------------------------------------------------
  // Distinct derivations hash distinct messages
  // ---------------------------------------------------------------------

  predicate NulFree(lbl: Bytes) {
    0 !in lbl
  }

  lemma NotShorter(a: Bytes, s: Bytes, b: Bytes, t: Bytes)
    requires NulFree(b)
    requires a + ([0] + s) == b + ([0] + t)
    ensures |b| <= |a|
  {
    assert (a + ([0] + s))[|a|] == 0;
  }

  lemma NulTerminated(a: Bytes, s: Bytes, b: Bytes, t: Bytes)
    requires NulFree(a) && NulFree(b)
    requires a + ([0] + s) == b + ([0] + t)
    ensures a == b && s == t
  {
    NotShorter(a, s, b, t);
    NotShorter(b, t, a, s);
    SplitEqual(a, [0] + s, b, [0] + t);
    SplitEqual([0], s, [0], t);
  }

  /** KDFa inputs: equal only for equal counter, label, joined context and bit length. */
  lemma KdfaInputInjective(s: Source, t: Source, i: U32, j: U32)
    requires s.KdfA? && t.KdfA? && NulFree(s.lbl) && NulFree(t.lbl)
    requires Input(s, i) == Input(t, j)
    ensures i == j && s.lbl == t.lbl
    ensures s.contextU + s.contextV == t.contextU + t.contextV
    ensures s.bits % 0x1_0000_0000 == t.bits % 0x1_0000_0000
  {
    var m, n := s.bits % 0x1_0000_0000, t.bits % 0x1_0000_0000;
    var tailS, tailT := s.contextU + (s.contextV + BE32(m)), t.contextU + (t.contextV + BE32(n));
    LabelNul(s.lbl, tailS);
    LabelNul(t.lbl, tailT);
    assert Input(s, i) == BE32(i) + (LabelBytes(s.lbl) + tailS);
    assert Input(t, j) == BE32(j) + (LabelBytes(t.lbl) + tailT);
    hide *;
    SplitEqual(BE32(i), LabelBytes(s.lbl) + tailS, BE32(j), LabelBytes(t.lbl) + tailT);
    BE32Injective(i, j);
    NulTerminated(s.lbl, tailS, t.lbl, tailT);
    ContextSplit(s.contextU, s.contextV, BE32(m), t.contextU, t.contextV, BE32(n));
    BE32Injective(m, n);
  }

  lemma LabelNul(lbl: Bytes, tail: Bytes)
    requires NulFree(lbl)
    ensures LabelBytes(lbl) + tail == lbl + ([0] + tail)
  {
  }

  lemma ContextSplit(a: Bytes, b: Bytes, x: Bytes, d: Bytes, e: Bytes, y: Bytes)
    requires a + (b + x) == d + (e + y) && |x| == |y|
    ensures a + b == d + e && x == y
  {
    assert a + b + x == a + (b + x) && d + e + y == d + (e + y);
    SplitEqual(a + b, x, d + e, y);
  }

  /** KDFe inputs over 32-octet Z and party fields: equal only when every field is. */
  lemma KdfeInputInjective(s: Source, t: Source, i: U32, j: U32)
    requires s.KdfE? && t.KdfE? && NulFree(s.lbl) && NulFree(t.lbl)
    requires |s.z| == |t.z| == |s.partyU| == |t.partyU| == |s.partyV| == |t.partyV| == 32
    requires Input(s, i) == Input(t, j)
    ensures i == j && s == t
  {
    var tailS, tailT := s.partyU + s.partyV, t.partyU + t.partyV;
    LabelNul(s.lbl, tailS);
    LabelNul(t.lbl, tailT);
    hide BE32, LabelBytes;
    SplitEqual(BE32(i), s.z + (LabelBytes(s.lbl) + tailS), BE32(j), t.z + (LabelBytes(t.lbl) + tailT));
    BE32Injective(i, j);
    SplitEqual(s.z, LabelBytes(s.lbl) + tailS, t.z, LabelBytes(t.lbl) + tailT);
    NulTerminated(s.lbl, tailS, t.lbl, tailT);
    SplitEqual(s.partyU, s.partyV, t.partyU, t.partyV);
  }

  /** The four derivations of the two wraps never hash one message twice. */
  lemma WrapDerivationsSeparate(s: Source, t: Source, i: U32, j: U32)
    requires s.KdfA? && t.KdfA? ==> s.lbl == LABEL_STORAGE && t.lbl == LABEL_INTEGRITY
    requires s.KdfE? && t.KdfE? ==>
               && s.lbl == LABEL_IDENTITY && t.lbl == LABEL_DUPLICATE
               && |s.z| == |t.z| == |s.partyU| == |t.partyU| == |s.partyV| == |t.partyV| == 32
    requires s.KdfA? == t.KdfA?
    ensures Input(s, i) != Input(t, j)
  {
    if Input(s, i) == Input(t, j) {
      if s.KdfA? {
        KdfaInputInjective(s, t, i, j);
      } else {
        KdfeInputInjective(s, t, i, j);
      }
    }
  }
}
