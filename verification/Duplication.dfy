/**
  WrapToPCR (import.go): the control plane seals a secret for a remote node's
  storage key, bound to a PCR policy, without a TPM of its own.
 */
module Duplication {
  import opened Wire
  import opened Bits
  import opened Crypto
  import opened Kdf
  import opened Cfb
  import opened Pcr
  import opened PublicArea
  import opened Policy
  import opened OuterWrap

  datatype WrapToPCRResult = WrapToPCRResult(objectPublic: Bytes, duplicate: Bytes, inSymSeed: Bytes)

  /** Room for the secret beside the rest of the sensitive area and the wrap. */
  predicate SealableSecret(secret: Bytes) {
    |secret| + 40 + OVERHEAD <= 0xFFFF
  }

  /** unique = H(seedValue || data), the binding a TPM checks at load. */
  function UniqueOf(c: Suite, seedValue: Bytes, data: Bytes): (d: Digest)
    ensures |d| == 32
  {
    c.Sha(seedValue + data)
  }

  /** The public area of the object that carries `secret` under this policy. */
  function ImportArea(c: Suite, obfuscation: Digest, secret: Bytes, policyDigest: Bytes): Bytes
    requires Fits(policyDigest)
  {
    MarshalImportSealPublic(policyDigest, UniqueOf(c, obfuscation, secret))
  }

  function WrapToPCRSpec(c: Suite, srk: EccPoint, secret: Bytes, sel: seq<PCRSelection>, pcrValues: seq<Bytes>,
                         obfuscation: Option<Digest>, ephemeral: Option<nat>): Result<WrapToPCRResult>
    requires SealableSecret(secret)
  {
    if !c.isOnCurve(PointOf(srk)) then Err(PointNotOnCurve)
    else if obfuscation.None? || ephemeral.None? then Err(RngFailure)
    else
      var area := ImportArea(c, obfuscation.value, secret, PolicyPCRDigestSpec(c, sel, pcrValues));
      var blobs := WrapFor(c, LABEL_DUPLICATE, ephemeral.value, PointOf(srk), NameOf(c, area), MarshalSealSensitive(obfuscation.value, secret));
      Ok(WrapToPCRResult(area, blobs.wrapped, blobs.secret))
  }

  method WrapToPCR(c: Suite, srk: EccPoint, secret: Bytes, sel: seq<PCRSelection>, pcrValues: seq<Bytes>,
                   obfuscation: Option<Digest>, ephemeral: Option<nat>) returns (r: Result<WrapToPCRResult>)
    requires SealableSecret(secret)
    ensures r == WrapToPCRSpec(c, srk, secret, sel, pcrValues, obfuscation, ephemeral)
  {
    if !c.isOnCurve(PointOf(srk)) {
      return Err(PointNotOnCurve);
    }
    if obfuscation.None? {
      return Err(RngFailure);
    }
    var obfuscate := obfuscation.value;
    var uh := new HashState(c);
    uh.Write(obfuscate);
    uh.Write(secret);
    var unique := uh.Sum();
    assert [] + obfuscate + secret == obfuscate + secret;
    var policyDigest := PolicyPCRDigest(c, sel, pcrValues);
    var objectPublic := MarshalImportSealPublic(policyDigest, unique);
    var objectName := NameOf(c, objectPublic);
    var sensitive := MarshalSealSensitive(obfuscate, secret);
    if ephemeral.None? {
      return Err(RngFailure);
    }
    hide Seal, SenderSeed, FixedPoint, PointOf, MarshalImportSealPublic, MarshalSealSensitive, NameOf, PolicyPCRDigestSpec;
    var seed, qe := DeriveSeed(c, LABEL_DUPLICATE, ephemeral.value, srk);
    var dup := WrapPayload(c, seed, objectName, sensitive);
    var duplicate := TPM2B(dup);
    var point := TPM2B(qe.x);
    point := point + TPM2B(qe.y);
    assert point == PutPoint(qe, []);
    var inSymSeed := TPM2B(point);
    r := Ok(WrapToPCRResult(objectPublic, duplicate, inSymSeed));
  }

  /** Leading zero octets in the storage key's coordinates change nothing. */
  lemma WrapEncodingIndependent(c: Suite, srk: EccPoint, i: nat, j: nat, secret: Bytes, sel: seq<PCRSelection>,
                                pcrValues: seq<Bytes>, obfuscation: Option<Digest>, ephemeral: Option<nat>)
    requires SealableSecret(secret)
    ensures WrapToPCRSpec(c, EccPoint(Zeros(i) + srk.x, Zeros(j) + srk.y), secret, sel, pcrValues, obfuscation, ephemeral)
            == WrapToPCRSpec(c, srk, secret, sel, pcrValues, obfuscation, ephemeral)
  {
    LeadingZeros(srk.x, i);
    LeadingZeros(srk.y, j);
    hide WrapFor, ImportArea, PolicyPCRDigestSpec, MarshalSealSensitive;
  }

  /** The public area in octets: the policy digest, and unique over seedValue, then secret. */
  lemma ImportAreaOctets(c: Suite, obfuscation: Digest, secret: Bytes, policyDigest: Digest)
    ensures ImportArea(c, obfuscation, secret, policyDigest)
            == [0x00, 0x08, 0x00, 0x0B, 0, 0, 0, 0] + ([0, 32] + (policyDigest + ([0x00, 0x10] + ([0, 32] + c.Sha(obfuscation + secret)))))
  {
    ImportSealPublicOctets(policyDigest, UniqueOf(c, obfuscation, secret));
    hide MarshalImportSealPublic;
  }

  /**
    All three outputs from the primitives: refused exactly off the curve; otherwise
    the area above, and its sensitive area sealed to its Name under the "DUPLICATE"
    seed of the two x-coordinates, ephemeral first, beside the ephemeral point.
   */
  lemma WrapToPCROctets(c: Suite, srk: EccPoint, secret: Bytes, sel: seq<PCRSelection>, pcrValues: seq<Bytes>, obfuscation: Digest, s: nat)
    requires SealableSecret(secret)
    ensures var r := WrapToPCRSpec(c, srk, secret, sel, pcrValues, Some(obfuscation), Some(s));
            var p := Point(BigEndian(srk.x), BigEndian(srk.y));
            var q := c.scalarMult(s, c.generator);
            var seed := c.Sha([0, 0, 0, 1] + (FixedBE(c.scalarMult(s, p).x, 32) + ([0x44, 0x55, 0x50, 0x4C, 0x49, 0x43, 0x41, 0x54, 0x45, 0]
                              + (FixedBE(q.x, 32) + FixedBE(p.x, 32)))));
            var policy := c.Sha(Zeros(32) + ([0, 0, 1, 0x7F] + (MarshalList(sel) + c.Sha(Concat(pcrValues)))));
            var area := ImportArea(c, obfuscation, secret, policy);
            var sensitive := [0x00, 0x08, 0, 0] + ([0, 32] + (obfuscation + TPM2B(secret)));
            if c.isOnCurve(p) then
              && r.Ok? && r.value.objectPublic == area
              && |sensitive| + 36 <= 0xFFFF
              && r.value.duplicate == TPM2B(Seal(c, seed, [0x00, 0x0B] + c.Sha(area), sensitive))
              && r.value.inSymSeed == [0, 68] + ([0, 32] + (FixedBE(q.x, 32) + ([0, 32] + FixedBE(q.y, 32))))
            else r == Err(PointNotOnCurve)
  {
    hide Seal, WrapFor, TPM2B, FixedBE, BigEndian, NameOf, MarshalSealSensitive, PolicyPCRDigestSpec, ImportArea, MarshalList, Concat;
    var area := ImportArea(c, obfuscation, secret, PolicyPCRDigestSpec(c, sel, pcrValues));
    PolicyPCRDigestOctets(c, sel, pcrValues);
    SealSensitiveOctets(obfuscation, secret);
    ObjectNameOctets(c, area);
    assert LABEL_DUPLICATE + [0] == [0x44, 0x55, 0x50, 0x4C, 0x49, 0x43, 0x41, 0x54, 0x45, 0];
    WrapOctets(c, LABEL_DUPLICATE, s, Point(BigEndian(srk.x), BigEndian(srk.y)), NameOf(c, area), MarshalSealSensitive(obfuscation, secret));
  }
}
