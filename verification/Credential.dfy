/**
  MakeCredential (makecred.go): the verifier's side of Credential Protection for
  an ECC P-256 endorsement key.
 */
module Credential {
  import opened Wire
  import opened Bits
  import opened Crypto
  import opened Kdf
  import opened Cfb
  import opened PublicArea
  import opened OuterWrap

  /** The credential blob and secret for an on-curve key; the rng may fail. */
  function MakeCredentialSpec(c: Suite, ek: EccPoint, akName: Bytes, credential: Bytes, ephemeral: Option<nat>): Result<Blobs>
    requires Wrappable(credential)
  {
    if !c.isOnCurve(PointOf(ek)) then Err(PointNotOnCurve)
    else if ephemeral.None? then Err(RngFailure)
    else Ok(WrapFor(c, LABEL_IDENTITY, ephemeral.value, PointOf(ek), akName, credential))
  }

  method MakeCredential(c: Suite, ek: EccPoint, akName: Bytes, credential: Bytes, ephemeral: Option<nat>)
    returns (r: Result<Blobs>)
    requires Wrappable(credential)
    ensures r == MakeCredentialSpec(c, ek, akName, credential, ephemeral)
  {
    if !c.isOnCurve(PointOf(ek)) {
      return Err(PointNotOnCurve);
    }
    if ephemeral.None? {
      return Err(RngFailure);
    }
    hide Seal, SenderSeed, FixedPoint, PointOf;
    var seed, qe := DeriveSeed(c, LABEL_IDENTITY, ephemeral.value, ek);
    var idObject := WrapPayload(c, seed, akName, credential);
    var credentialBlob := TPM2B(idObject);
    var point := TPM2B(qe.x);
    point := point + TPM2B(qe.y);
    assert point == PutPoint(qe, []);
    var secret := TPM2B(point);
    r := Ok(Blobs(credentialBlob, secret));
  }

  /** What ActivateCredential recovers: the contents of the two blobs, unwrapped by the EK. */
  function Recover(c: Suite, d: nat, akName: Bytes, blobs: Blobs): Result<Bytes> {
    var (wrapped, rest) :- UnmarshalTPM2B(blobs.wrapped);
    var (secret, rest') :- UnmarshalTPM2B(blobs.secret);
    if rest != [] || rest' != [] then Err(BadStructure)
    else Unwrap(c, LABEL_IDENTITY, d, akName, wrapped, secret)
  }

  lemma RecoverWrapped(c: Suite, d: nat, s: nat, p: Point, name: Bytes, payload: Bytes, akName: Bytes)
    requires Wrappable(payload)
    ensures Recover(c, d, akName, WrapFor(c, LABEL_IDENTITY, s, p, name, payload))
            == Unwrap(c, LABEL_IDENTITY, d, akName, Seal(c, SenderSeed(c, LABEL_IDENTITY, s, p), name, payload), PutPoint(FixedPoint(c.Public(s)), []))
  {
    var blob, point := Seal(c, SenderSeed(c, LABEL_IDENTITY, s, p), name, payload), PutPoint(FixedPoint(c.Public(s)), []);
    UnmarshalMarshal(blob, []);
    UnmarshalMarshal(point, []);
    assert TPM2B(blob) + [] == TPM2B(blob) && TPM2B(point) + [] == TPM2B(point);
    hide Seal, SenderSeed, PutPoint, FixedPoint, TPM2B, UnmarshalTPM2B, Unwrap;
  }

  /**
    The holder of the EK scalar recovers exactly the credential, and any other
    34-octet AK Name is refused unless HMAC collides.
   */
  lemma CredentialRoundTrip(c: Suite, d: nat, s: nat, ek: EccPoint, akName: Bytes, credential: Bytes)
    requires c.Lawful() && c.IsScalar(d) && c.IsScalar(s) && PointOf(ek) == c.Public(d) && Wrappable(credential)
    ensures MakeCredentialSpec(c, ek, akName, credential, Some(s)).Ok?
    ensures Recover(c, d, akName, MakeCredentialSpec(c, ek, akName, credential, Some(s)).value) == Ok(credential)
  {
    RecoverWrapped(c, d, s, c.Public(d), akName, credential, akName);
    UnwrapWrap(c, LABEL_IDENTITY, s, d, akName, credential);
    hide WrapFor, Seal, SenderSeed, PutPoint, FixedPoint, Recover, Unwrap, PointOf;
  }

  lemma CredentialNamesOneKey(c: Suite, d: nat, s: nat, ek: EccPoint, akName: Bytes, other: Bytes, credential: Bytes)
    requires c.Lawful() && c.IsScalar(d) && c.IsScalar(s) && PointOf(ek) == c.Public(d) && Wrappable(credential)
    requires |akName| == |other| == NAME_BYTES
    requires MakeCredentialSpec(c, ek, akName, credential, Some(s)).Ok?
    requires Recover(c, d, other, MakeCredentialSpec(c, ek, akName, credential, Some(s)).value).Ok?
    ensures var seed := SenderSeed(c, LABEL_IDENTITY, s, c.Public(d));
            var enc := Encipher(c, seed, akName, credential);
            other == akName || c.MacCollision(IntegrityKey(c, seed), enc + akName, enc + other)
  {
    var seed := SenderSeed(c, LABEL_IDENTITY, s, c.Public(d));
    RecoverWrapped(c, d, s, c.Public(d), akName, credential, other);
    UnwrapReaches(c, LABEL_IDENTITY, s, d, other, Seal(c, seed, akName, credential));
    hide Seal, SenderSeed, PutPoint, FixedPoint, Unwrap, Open, PointOf, WrapFor, Recover, Encipher, IntegrityKey;
    SealNamesOne(c, seed, akName, credential, other);
  }

  /** Leading zero octets in the EK's coordinates change nothing. */
  lemma CredentialEncodingIndependent(c: Suite, ek: EccPoint, i: nat, j: nat, akName: Bytes, credential: Bytes, ephemeral: Option<nat>)
    requires Wrappable(credential)
    ensures MakeCredentialSpec(c, EccPoint(Zeros(i) + ek.x, Zeros(j) + ek.y), akName, credential, ephemeral)
            == MakeCredentialSpec(c, ek, akName, credential, ephemeral)
  {
    LeadingZeros(ek.x, i);
    LeadingZeros(ek.y, j);
    hide WrapFor;
  }

  /**
    Both blobs from the primitives: refused exactly off the curve; otherwise sealed
    under the "IDENTITY" seed of the two x-coordinates, ephemeral first, beside the
    ephemeral point.
   */
  lemma CredentialOctets(c: Suite, ek: EccPoint, akName: Bytes, credential: Bytes, s: nat)
    requires Wrappable(credential)
    ensures var r := MakeCredentialSpec(c, ek, akName, credential, Some(s));
            var p := Point(BigEndian(ek.x), BigEndian(ek.y));
            var q := c.scalarMult(s, c.generator);
            var seed := c.Sha([0, 0, 0, 1] + (FixedBE(c.scalarMult(s, p).x, 32) + ([0x49, 0x44, 0x45, 0x4E, 0x54, 0x49, 0x54, 0x59, 0]
                              + (FixedBE(q.x, 32) + FixedBE(p.x, 32)))));
            if c.isOnCurve(p) then
              r == Ok(Blobs(TPM2B(Seal(c, seed, akName, credential)), [0, 68] + ([0, 32] + (FixedBE(q.x, 32) + ([0, 32] + FixedBE(q.y, 32))))))
            else r == Err(PointNotOnCurve)
  {
    hide Seal, WrapFor, TPM2B, FixedBE, BigEndian;
    assert LABEL_IDENTITY + [0] == [0x49, 0x44, 0x45, 0x4E, 0x54, 0x49, 0x54, 0x59, 0];
    WrapOctets(c, LABEL_IDENTITY, s, Point(BigEndian(ek.x), BigEndian(ek.y)), akName, credential);
  }
}
