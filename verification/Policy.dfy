/**
  The PolicyPCR digest (seal.go): what a policy session accumulates for a PCR
  selection and its values, and why two different selections or values cannot
  share a digest without a SHA-256 collision.
 */
module Policy {
  import opened Wire
  import opened Crypto
  import opened Pcr

  const CC_POLICY_PCR: U32 := 0x0000_017F
  const CC_POLICY_SECRET: U32 := 0x0000_0151

  /** What a PolicyPCR update hashes: old digest, command code, selection, PCR digest. */
  function PcrMessage(start: Digest, sel: seq<PCRSelection>, pcrDigest: Digest): (m: Bytes)
    ensures |m| == 72 + 6 * |sel|
  {
    start + (BE32(CC_POLICY_PCR) + (MarshalList(sel) + pcrDigest))
  }

  /** One PolicyPCR update over the concatenated PCR values. */
  function ExtendPcr(c: Suite, start: Digest, sel: seq<PCRSelection>, values: Bytes): Digest {
    c.Sha(PcrMessage(start, sel, c.Sha(values)))
  }

  function PolicyPCRDigestSpec(c: Suite, sel: seq<PCRSelection>, pcrValues: seq<Bytes>): (d: Digest)
    ensures |d| == 32
  {
    ExtendPcr(c, Zeros(32), sel, Concat(pcrValues))
  }

  method PolicyPCRDigest(c: Suite, sel: seq<PCRSelection>, pcrValues: seq<Bytes>) returns (d: Bytes)
    ensures d == PolicyPCRDigestSpec(c, sel, pcrValues)
    ensures d == c.Sha(Zeros(32) + ([0, 0, 1, 0x7F] + (MarshalList(sel) + c.Sha(Concat(pcrValues)))))
  {
    PolicyPCRDigestOctets(c, sel, pcrValues);
    var ph := new HashState(c);
    for i := 0 to |pcrValues|
      invariant ph.written == Concat(pcrValues[..i])
    {
      ph.Write(pcrValues[i]);
      ConcatAppend(pcrValues[..i], pcrValues[i]);
      assert pcrValues[..i + 1] == pcrValues[..i] + [pcrValues[i]];
    }
    assert pcrValues[..|pcrValues|] == pcrValues;
    var pcrDigest := ph.Sum();
    var dh := new HashState(c);
    dh.Write(Zeros(32));
    dh.Write(BE32(CC_POLICY_PCR));
    var list := MarshalPCRSelectionList(sel);
    dh.Write(list);
    dh.Write(pcrDigest);
    d := dh.Sum();
    Reassociate4(Zeros(32), BE32(CC_POLICY_PCR), list, pcrDigest);
    hide MarshalList, BE32;
    assert dh.written == PcrMessage(Zeros(32), sel, pcrDigest);
  }

  lemma Reassociate4(a: Bytes, b: Bytes, d: Bytes, e: Bytes)
    ensures [] + a + b + d + e == a + (b + (d + e))
  {
  }

  /** The parts of a PolicyPCR message can be told apart. */
  lemma PcrMessageInjective(start: Digest, sel: seq<PCRSelection>, d: Digest, start': Digest, sel': seq<PCRSelection>, d': Digest)
    requires PcrMessage(start, sel, d) == PcrMessage(start', sel', d')
    ensures start == start' && NormalList(sel) == NormalList(sel') && d == d'
  {
    hide MarshalList, NormalList, BE32;
    var cc := BE32(CC_POLICY_PCR);
    SplitEqual(start, cc + (MarshalList(sel) + d), start', cc + (MarshalList(sel') + d'));
    SplitEqual(cc, MarshalList(sel) + d, cc, MarshalList(sel') + d');
    assert |MarshalList(sel)| == |MarshalList(sel')|;
    SplitEqual(MarshalList(sel), d, MarshalList(sel'), d');
    MarshalListInjective(sel, sel');
  }

  /**
    Equal updates come from the same old digest, the same banks with the same
    in-range PCR sets and the same concatenated values, unless one of two
    explicit pairs of messages collides.
   */
  lemma ExtendPcrBinding(c: Suite, start: Digest, sel: seq<PCRSelection>, v: Bytes, start': Digest, sel': seq<PCRSelection>, v': Bytes)
    requires ExtendPcr(c, start, sel, v) == ExtendPcr(c, start', sel', v')
    ensures || (start == start' && NormalList(sel) == NormalList(sel') && v == v')
            || c.ShaCollision(v, v')
            || c.ShaCollision(PcrMessage(start, sel, c.Sha(v)), PcrMessage(start', sel', c.Sha(v')))
  {
    hide PcrMessage;
    if PcrMessage(start, sel, c.Sha(v)) == PcrMessage(start', sel', c.Sha(v')) {
      PcrMessageInjective(start, sel, c.Sha(v), start', sel', c.Sha(v'));
    }
  }

  lemma PolicyPCRDigestBinding(c: Suite, sel: seq<PCRSelection>, vals: seq<Bytes>, sel': seq<PCRSelection>, vals': seq<Bytes>)
    requires PolicyPCRDigestSpec(c, sel, vals) == PolicyPCRDigestSpec(c, sel', vals')
    ensures || (NormalList(sel) == NormalList(sel') && Concat(vals) == Concat(vals'))
            || c.ShaCollision(Concat(vals), Concat(vals'))
            || c.ShaCollision(PcrMessage(Zeros(32), sel, c.Sha(Concat(vals))), PcrMessage(Zeros(32), sel', c.Sha(Concat(vals'))))
  {
    ExtendPcrBinding(c, Zeros(32), sel, Concat(vals), Zeros(32), sel', Concat(vals'));
  }

  /** The converse: the digest depends on the normal form and the concatenation only. */
  lemma PolicyPCRDigestOfNormal(c: Suite, sel: seq<PCRSelection>, vals: seq<Bytes>, sel': seq<PCRSelection>, vals': seq<Bytes>)
    requires NormalList(sel) == NormalList(sel') && Concat(vals) == Concat(vals')
    ensures PolicyPCRDigestSpec(c, sel, vals) == PolicyPCRDigestSpec(c, sel', vals')
  {
    MarshalListInjective(sel, sel');
  }

  predicate AllOfSize(vals: seq<Bytes>, n: nat) {
    forall v :: v in vals ==> |v| == n
  }

  lemma ConcatNonEmpty(vals: seq<Bytes>, n: nat)
    requires n > 0 && AllOfSize(vals, n)
    ensures Concat(vals) == [] <==> vals == []
  {
    if vals != [] {
      assert vals[0] in vals;
    }
  }

  /** Values of one positive size are recovered from their concatenation. */
  lemma {:induction false} ConcatInjective(vals: seq<Bytes>, vals': seq<Bytes>, n: nat)
    requires n > 0 && AllOfSize(vals, n) && AllOfSize(vals', n)
    requires Concat(vals) == Concat(vals')
    ensures vals == vals'
  {
    ConcatNonEmpty(vals, n);
    ConcatNonEmpty(vals', n);
    if vals != [] {
      assert vals[0] in vals && vals'[0] in vals';
      SplitEqual(vals[0], Concat(vals[1..]), vals'[0], Concat(vals'[1..]));
      ConcatInjective(vals[1..], vals'[1..], n);
    }
  }

  /**
    The digest from SHA-256 alone: 32 zero octets, the command code 0x0000017F, the
    selection list, then the digest of the concatenated values.
   */
  lemma PolicyPCRDigestOctets(c: Suite, sel: seq<PCRSelection>, vals: seq<Bytes>)
    ensures PolicyPCRDigestSpec(c, sel, vals) == c.Sha(Zeros(32) + ([0, 0, 1, 0x7F] + (MarshalList(sel) + c.Sha(Concat(vals)))))
  {
    BE32Octets(CC_POLICY_PCR, 0, 0, 1, 0x7F);
    hide BE32, MarshalList;
  }
}
