/**
  Public areas (TPMT_PUBLIC): the ECC grammar that parseTPMTPublicECCPoint walks
  (attest.go), the AK, EK and storage templates that are instances of it
  (attest.go, ek.go, seal.go), the sealed keyed-hash areas (seal.go, import.go)
  and an object's Name (name.go).
 */
module PublicArea {
  import opened Wire
  import opened Crypto

  const ALG_AES: U16 := 0x0006
  const ALG_KEYEDHASH: U16 := 0x0008
  const ALG_SHA256: U16 := 0x000B
  const ALG_NULL: U16 := 0x0010
  const ALG_ECDSA: U16 := 0x0018
  const ALG_ECC: U16 := 0x0023
  const ALG_CFB: U16 := 0x0043
  const ECC_NIST_P256: U16 := 0x0003

  /** TPMA_OBJECT bits. */
  const FIXED_TPM: U32 := 0x2
  const FIXED_PARENT: U32 := 0x10
  const USER_WITH_AUTH: U32 := 0x40
  const STORAGE_ATTRIBUTES: U32 := 0x0003_0072
  const AK_ATTRIBUTES: U32 := 0x0005_0072
  const EK_ATTRIBUTES: U32 := 0x0003_00B2
  const SEAL_ATTRIBUTES: U32 := 0x0000_0012
  const IMPORT_SEAL_ATTRIBUTES: U32 := 0

  /** Whether single-bit attribute `bit` is set in attrs. */
  predicate HasAttribute(attrs: U32, bit: U32)
    requires bit > 0
  {
    attrs / bit % 2 == 1
  }

  // ---------------------------------------------------------------------
  // Reading through a cursor
  // ---------------------------------------------------------------------

  lemma TakeU16At(b: Bytes, off: nat)
    requires off <= |b|
    ensures GetU16(b, off).None? ==> TakeU16(b[off..]) == Err(ShortBuffer)
    ensures GetU16(b, off).Some? ==> off + 2 <= |b| && TakeU16(b[off..]) == Ok((GetU16(b, off).value, b[off + 2..]))
  {
  }

  lemma TakeU32At(b: Bytes, off: nat)
    requires off <= |b|
    ensures GetU32(b, off).None? ==> TakeU32(b[off..]) == Err(ShortBuffer)
    ensures GetU32(b, off).Some? ==> off + 4 <= |b| && TakeU32(b[off..]) == Ok((GetU32(b, off).value, b[off + 4..]))
  {
  }

  // ---------------------------------------------------------------------
  // The ECC public area
  // ---------------------------------------------------------------------

  /** An algorithm selector that carries details unless it is TPM_ALG_NULL. */
  datatype Symmetric = NoSymmetric | Cipher(alg: U16, keyBits: U16, mode: U16)
  datatype Scheme = NoScheme | Hashed(alg: U16, hashAlg: U16)
  datatype EccPoint = EccPoint(x: Bytes, y: Bytes)

  datatype EccParms = EccParms(symmetric: Symmetric, scheme: Scheme, curve: U16, kdf: Scheme)

  datatype EccArea = EccArea(objectType: U16, nameAlg: U16, attributes: U32, policy: Bytes, parms: EccParms, point: EccPoint)

  predicate ValidParms(p: EccParms) {
    && (p.symmetric.Cipher? ==> p.symmetric.alg != ALG_NULL)
    && (p.scheme.Hashed? ==> p.scheme.alg != ALG_NULL)
    && (p.kdf.Hashed? ==> p.kdf.alg != ALG_NULL)
  }

  predicate ValidArea(a: EccArea) {
    Fits(a.policy) && Fits(a.point.x) && Fits(a.point.y) && ValidParms(a.parms)
  }

  /** Every encoder takes the bytes that follow it. */
  function PutSymmetric(s: Symmetric, tail: Bytes): Bytes {
    match s
    case NoSymmetric => BE16(ALG_NULL) + tail
    case Cipher(alg, keyBits, mode) => BE16(alg) + (BE16(keyBits) + (BE16(mode) + tail))
  }

  function PutScheme(s: Scheme, tail: Bytes): Bytes {
    match s
    case NoScheme => BE16(ALG_NULL) + tail
    case Hashed(alg, hashAlg) => BE16(alg) + (BE16(hashAlg) + tail)
  }

  function PutParms(p: EccParms, tail: Bytes): Bytes {
    PutSymmetric(p.symmetric, PutScheme(p.scheme, BE16(p.curve) + PutScheme(p.kdf, tail)))
  }

  function PutPoint(p: EccPoint, tail: Bytes): (b: Bytes)
    requires Fits(p.x) && Fits(p.y)
    ensures |b| == 4 + |p.x| + |p.y| + |tail|
  {
    TPM2B(p.x) + (TPM2B(p.y) + tail)
  }

  function PutArea(a: EccArea, tail: Bytes): Bytes
    requires Fits(a.policy) && Fits(a.point.x) && Fits(a.point.y)
  {
    BE16(a.objectType) + (BE16(a.nameAlg) + (BE32(a.attributes) + (TPM2B(a.policy) + PutParms(a.parms, PutPoint(a.point, tail)))))
  }

  function TakeSymmetric(b: Bytes): Result<(Symmetric, Bytes)> {
    var (alg, b1) :- TakeU16(b);
    if alg == ALG_NULL then Ok((NoSymmetric, b1))
    else
      var (keyBits, b2) :- TakeU16(b1);
      var (mode, b3) :- TakeU16(b2);
      Ok((Cipher(alg, keyBits, mode), b3))
  }

  function TakeScheme(b: Bytes): Result<(Scheme, Bytes)> {
    var (alg, b1) :- TakeU16(b);
    if alg == ALG_NULL then Ok((NoScheme, b1))
    else
      var (hashAlg, b2) :- TakeU16(b1);
      Ok((Hashed(alg, hashAlg), b2))
  }

  function TakeParms(b: Bytes): Result<(EccParms, Bytes)> {
    var (symmetric, b1) :- TakeSymmetric(b);
    var (scheme, b2) :- TakeScheme(b1);
    var (curve, b3) :- TakeU16(b2);
    var (kdf, b4) :- TakeScheme(b3);
    Ok((EccParms(symmetric, scheme, curve, kdf), b4))
  }

  function TakePoint(b: Bytes): Result<(EccPoint, Bytes)> {
    var (x, b1) :- UnmarshalTPM2B(b);
    var (y, b2) :- UnmarshalTPM2B(b1);
    Ok((EccPoint(x, y), b2))
  }

  function TakeArea(b: Bytes): Result<(EccArea, Bytes)> {
    var (objectType, b1) :- TakeU16(b);
    var (nameAlg, b2) :- TakeU16(b1);
    var (attributes, b3) :- TakeU32(b2);
    var (policy, b4) :- UnmarshalTPM2B(b3);
    var (parms, b5) :- TakeParms(b4);
    var (point, b6) :- TakePoint(b5);
    Ok((EccArea(objectType, nameAlg, attributes, policy, parms, point), b6))
  }

  /** The grammar's decoder and encoder are inverse, field by field. */
  lemma TakeSymmetricPut(s: Symmetric, tail: Bytes)
    requires s.Cipher? ==> s.alg != ALG_NULL
    ensures TakeSymmetric(PutSymmetric(s, tail)) == Ok((s, tail))
  {
    match s
    case NoSymmetric =>
      TakeU16Put(ALG_NULL, tail);
    case Cipher(alg, keyBits, mode) =>
      TakeU16Put(alg, BE16(keyBits) + (BE16(mode) + tail));
      TakeU16Put(keyBits, BE16(mode) + tail);
      TakeU16Put(mode, tail);
      hide TakeU16, BE16;
  }

  lemma TakeSchemePut(s: Scheme, tail: Bytes)
    requires s.Hashed? ==> s.alg != ALG_NULL
    ensures TakeScheme(PutScheme(s, tail)) == Ok((s, tail))
  {
    match s
    case NoScheme =>
      TakeU16Put(ALG_NULL, tail);
    case Hashed(alg, hashAlg) =>
      TakeU16Put(alg, BE16(hashAlg) + tail);
      TakeU16Put(hashAlg, tail);
      hide TakeU16, BE16;
  }

  lemma TakeParmsPut(p: EccParms, tail: Bytes)
    requires ValidParms(p)
    ensures TakeParms(PutParms(p, tail)) == Ok((p, tail))
  {
    hide TakeSymmetric, TakeScheme, PutSymmetric, PutScheme, TakeU16, BE16;
    var afterScheme := BE16(p.curve) + PutScheme(p.kdf, tail);
    TakeSymmetricPut(p.symmetric, PutScheme(p.scheme, afterScheme));
    TakeSchemePut(p.scheme, afterScheme);
    TakeU16Put(p.curve, PutScheme(p.kdf, tail));
    TakeSchemePut(p.kdf, tail);
  }

  lemma TakePointPut(p: EccPoint, tail: Bytes)
    requires Fits(p.x) && Fits(p.y)
    ensures TakePoint(PutPoint(p, tail)) == Ok((p, tail))
  {
    UnmarshalMarshal(p.x, TPM2B(p.y) + tail);
    UnmarshalMarshal(p.y, tail);
    hide UnmarshalTPM2B, TPM2B;
  }

  lemma TakeAreaPut(a: EccArea, tail: Bytes)
    requires ValidArea(a)
    ensures TakeArea(PutArea(a, tail)) == Ok((a, tail))
  {
    hide TakeParms, PutParms, TakePoint, PutPoint, TakeU16, TakeU32, BE16, BE32, UnmarshalTPM2B, TPM2B;
    var afterParms := PutPoint(a.point, tail);
    var afterPolicy := PutParms(a.parms, afterParms);
    TakeU16Put(a.objectType, BE16(a.nameAlg) + (BE32(a.attributes) + (TPM2B(a.policy) + afterPolicy)));
    TakeU16Put(a.nameAlg, BE32(a.attributes) + (TPM2B(a.policy) + afterPolicy));
    TakeU32Put(a.attributes, TPM2B(a.policy) + afterPolicy);
    UnmarshalMarshal(a.policy, afterPolicy);
    TakeParmsPut(a.parms, afterParms);
    TakePointPut(a.point, tail);
  }

  lemma PutTakeU16(b: Bytes)
    requires TakeU16(b).Ok?
    ensures b == BE16(TakeU16(b).value.0) + TakeU16(b).value.1
  {
    BE16Write(b, 0);
  }

  lemma PutTakeU32(b: Bytes)
    requires TakeU32(b).Ok?
    ensures b == BE32(TakeU32(b).value.0) + TakeU32(b).value.1
  {
    BE32Write(b, 0);
  }

  lemma PutTakeSymmetric(b: Bytes)
    requires TakeSymmetric(b).Ok?
    ensures var (s, rest) := TakeSymmetric(b).value;
            b == PutSymmetric(s, rest) && (s.Cipher? ==> s.alg != ALG_NULL)
  {
    PutTakeU16(b);
    var b1 := TakeU16(b).value.1;
    if TakeU16(b).value.0 != ALG_NULL {
      PutTakeU16(b1);
      PutTakeU16(TakeU16(b1).value.1);
    }
    hide TakeU16, BE16;
  }

  lemma PutTakeScheme(b: Bytes)
    requires TakeScheme(b).Ok?
    ensures var (s, rest) := TakeScheme(b).value;
            b == PutScheme(s, rest) && (s.Hashed? ==> s.alg != ALG_NULL)
  {
    PutTakeU16(b);
    if TakeU16(b).value.0 != ALG_NULL {
      PutTakeU16(TakeU16(b).value.1);
    }
    hide TakeU16, BE16;
  }

  lemma PutTakeParms(b: Bytes)
    requires TakeParms(b).Ok?
    ensures var (p, rest) := TakeParms(b).value;
            b == PutParms(p, rest) && ValidParms(p)
  {
    hide TakeSymmetric, TakeScheme, PutSymmetric, PutScheme, TakeU16, BE16;
    PutTakeSymmetric(b);
    var b1 := TakeSymmetric(b).value.1;
    PutTakeScheme(b1);
    var b2 := TakeScheme(b1).value.1;
    PutTakeU16(b2);
    PutTakeScheme(TakeU16(b2).value.1);
  }

  lemma PutTakeArea(b: Bytes)
    requires TakeArea(b).Ok?
    ensures var (a, rest) := TakeArea(b).value;
            ValidArea(a) && b == PutArea(a, rest)
  {
    hide TakeParms, PutParms, TakeU16, TakeU32, BE16, BE32, UnmarshalTPM2B, TPM2B;
    PutTakeU16(b);
    var b1 := TakeU16(b).value.1;
    PutTakeU16(b1);
    var b2 := TakeU16(b1).value.1;
    PutTakeU32(b2);
    var b3 := TakeU32(b2).value.1;
    MarshalUnmarshal(b3);
    var b4 := UnmarshalTPM2B(b3).value.1;
    PutTakeParms(b4);
    var b5 := TakeParms(b4).value.1;
    MarshalUnmarshal(b5);
    MarshalUnmarshal(UnmarshalTPM2B(b5).value.1);
  }

  /** What parseTPMTPublicECCPoint returns: the unique point, or the decoder's error. */
  function PointIn(b: Bytes): Result<EccPoint> {
    var (a, _) :- TakeArea(b);
    Ok(a.point)
  }

  /**
    The parser accepts exactly the strings with a prefix in the grammar, and
    returns that prefix's point whatever follows it.
   */
  lemma PointInGrammar(b: Bytes, p: EccPoint)
    ensures PointIn(b) == Ok(p) <==> exists a, tail :: ValidArea(a) && a.point == p && b == PutArea(a, tail)
  {
    if PointIn(b) == Ok(p) {
      PutTakeArea(b);
      var (a, tail) := TakeArea(b).value;
      assert ValidArea(a) && a.point == p && b == PutArea(a, tail);
    }
    forall a, tail | ValidArea(a) && a.point == p && b == PutArea(a, tail)
      ensures PointIn(b) == Ok(p)
    {
      TakeAreaPut(a, tail);
    }
  }

  /** The only error is a short buffer. */
  lemma PointInTotal(b: Bytes)
    ensures PointIn(b).Err? ==> PointIn(b) == Err(ShortBuffer)
  {
  }

  method ParseTPMTPublicECCPoint(b: Bytes) returns (r: Result<EccPoint>)
    ensures r == PointIn(b)
  {
    hide TakeU16, TakeU32, UnmarshalTPM2B;
    var off := 0;
    assert b[0..] == b;
    TakeU16At(b, off);
    if GetU16(b, off).None? {
      return Err(ShortBuffer);
    }
    off := off + 2;
    TakeU16At(b, off);
    if GetU16(b, off).None? {
      return Err(ShortBuffer);
    }
    off := off + 2;
    TakeU32At(b, off);
    if GetU32(b, off).None? {
      return Err(ShortBuffer);
    }
    off := off + 4;
    var policy := UnmarshalTPM2B(b[off..]);
    if policy.Err? {
      return Err(policy.error);
    }
    var p := policy.value.1;
    var po := ParseParms(p);
    if po.None? {
      return Err(ShortBuffer);
    }
    var x := UnmarshalTPM2B(p[po.value..]);
    if x.Err? {
      return Err(x.error);
    }
    var y := UnmarshalTPM2B(x.value.1);
    if y.Err? {
      return Err(y.error);
    }
    r := Ok(EccPoint(x.value.0, y.value.0));
  }

  /** The walk over TPMS_ECC_PARMS: the offset just behind it. */
  method ParseParms(p: Bytes) returns (end: Option<nat>)
    ensures end.None? ==> TakeParms(p) == Err(ShortBuffer)
    ensures end.Some? ==> end.value <= |p| && TakeParms(p).Ok? && TakeParms(p).value.1 == p[end.value..]
  {
    hide TakeU16, U16At;
    var po := 0;
    assert p[0..] == p;
    TakeU16At(p, po);
    var sym := GetU16(p, po);
    if sym.None? {
      return None;
    }
    po := po + 2;
    if sym.value != ALG_NULL {
      TakeU16At(p, po);
      if GetU16(p, po).None? {
        return None;
      }
      po := po + 2;
      TakeU16At(p, po);
      if GetU16(p, po).None? {
        return None;
      }
      po := po + 2;
    }
    assert TakeSymmetric(p).Ok? && TakeSymmetric(p).value.1 == p[po..];
    ghost var afterSymmetric := p[po..];
    TakeU16At(p, po);
    var scheme := GetU16(p, po);
    if scheme.None? {
      return None;
    }
    po := po + 2;
    if scheme.value != ALG_NULL {
      TakeU16At(p, po);
      if GetU16(p, po).None? {
        return None;
      }
      po := po + 2;
    }
    assert TakeScheme(afterSymmetric).Ok? && TakeScheme(afterSymmetric).value.1 == p[po..];
    TakeU16At(p, po);
    if GetU16(p, po).None? {
      return None;
    }
    po := po + 2;
    ghost var afterCurve := p[po..];
    TakeU16At(p, po);
    var kdf := GetU16(p, po);
    if kdf.None? {
      return None;
    }
    po := po + 2;
    if kdf.value != ALG_NULL {
      TakeU16At(p, po);
      if GetU16(p, po).None? {
        return None;
      }
      po := po + 2;
    }
    assert TakeScheme(afterCurve).Ok? && TakeScheme(afterCurve).value.1 == p[po..];
    end := Some(po);
  }

  // ---------------------------------------------------------------------
  // Templates
  // ---------------------------------------------------------------------

  const STORAGE_CIPHER := Cipher(ALG_AES, 128, ALG_CFB)

  function AkArea(point: EccPoint): EccArea {
    EccArea(ALG_ECC, ALG_SHA256, AK_ATTRIBUTES, [], EccParms(NoSymmetric, Hashed(ALG_ECDSA, ALG_SHA256), ECC_NIST_P256, NoScheme), point)
  }

  function StorageArea(point: EccPoint): EccArea {
    EccArea(ALG_ECC, ALG_SHA256, STORAGE_ATTRIBUTES, [], EccParms(STORAGE_CIPHER, NoScheme, ECC_NIST_P256, NoScheme), point)
  }

  function EkArea(ekAuthPolicy: Bytes, point: EccPoint): EccArea {
    EccArea(ALG_ECC, ALG_SHA256, EK_ATTRIBUTES, ekAuthPolicy, EccParms(STORAGE_CIPHER, NoScheme, ECC_NIST_P256, NoScheme), point)
  }

  /** The AK template as attest.go writes it: the area with an empty point, size-prefixed. */
  method MarshalECCAKPublic() returns (b: Bytes)
    ensures b == TPM2B(PutArea(AkArea(EccPoint([], [])), []))
  {
    AkTemplateOctets(EccPoint([], []));
    BE16Octets(ALG_ECC, 0x00, 0x23);
    BE16Octets(ALG_SHA256, 0x00, 0x0B);
    BE32Octets(AK_ATTRIBUTES, 0x00, 0x05, 0x00, 0x72);
    BE16Octets(0, 0, 0);
    BE16Octets(ALG_NULL, 0x00, 0x10);
    BE16Octets(ALG_ECDSA, 0x00, 0x18);
    BE16Octets(ECC_NIST_P256, 0x00, 0x03);
    TPM2BOctets([], 0, 0);
    hide BE16, BE32, TPM2B, PutArea;
    var p: Bytes := [];
    p := p + BE16(ALG_ECC);
    p := p + BE16(ALG_SHA256);
    p := p + BE32(AK_ATTRIBUTES);
    p := p + BE16(0);
    assert p == [0x00, 0x23, 0x00, 0x0B, 0x00, 0x05, 0x00, 0x72, 0, 0];
    ghost var head := p;
    p := p + BE16(ALG_NULL);
    p := p + BE16(ALG_ECDSA);
    p := p + BE16(ALG_SHA256);
    p := p + BE16(ECC_NIST_P256);
    p := p + BE16(ALG_NULL);
    p := p + BE16(0);
    p := p + BE16(0);
    assert p == head + ([0x00, 0x10, 0x00, 0x18, 0x00, 0x0B, 0x00, 0x03, 0x00, 0x10] + (([0, 0] + []) + ([0, 0] + [])));
    b := TPM2B(p);
  }

  /** A TPM that fills any point into a template is read back to that point. */
  lemma TemplatesParse(ekAuthPolicy: Bytes, point: EccPoint, tail: Bytes)
    requires Fits(ekAuthPolicy) && Fits(point.x) && Fits(point.y)
    ensures PointIn(PutArea(AkArea(point), tail)) == Ok(point)
    ensures PointIn(PutArea(StorageArea(point), tail)) == Ok(point)
    ensures PointIn(PutArea(EkArea(ekAuthPolicy, point), tail)) == Ok(point)
  {
    TakeAreaPut(AkArea(point), tail);
    TakeAreaPut(StorageArea(point), tail);
    TakeAreaPut(EkArea(ekAuthPolicy, point), tail);
    hide PutArea, TakeArea;
  }

  // ---------------------------------------------------------------------
  // Sealed keyed-hash objects
  // ---------------------------------------------------------------------

  /** The TPMT_PUBLIC of a keyed-hash object. */
  datatype SealedArea = SealedArea(nameAlg: U16, attributes: U32, policy: Bytes, scheme: U16, unique: Bytes)

  function PutSealed(a: SealedArea, tail: Bytes): (b: Bytes)
    requires Fits(a.policy) && Fits(a.unique)
    ensures |b| == 14 + |a.policy| + |a.unique| + |tail|
  {
    BE16(ALG_KEYEDHASH) + (BE16(a.nameAlg) + (BE32(a.attributes) + (TPM2B(a.policy) + (BE16(a.scheme) + (TPM2B(a.unique) + tail)))))
  }

  function TakeSealed(b: Bytes): Result<(SealedArea, Bytes)> {
    var (objectType, b1) :- TakeU16(b);
    if objectType != ALG_KEYEDHASH then Err(BadStructure)
    else
      var (nameAlg, b2) :- TakeU16(b1);
      var (attributes, b3) :- TakeU32(b2);
      var (policy, b4) :- UnmarshalTPM2B(b3);
      var (scheme, b5) :- TakeU16(b4);
      var (unique, b6) :- UnmarshalTPM2B(b5);
      Ok((SealedArea(nameAlg, attributes, policy, scheme, unique), b6))
  }

  lemma TakeSealedPut(a: SealedArea, tail: Bytes)
    requires Fits(a.policy) && Fits(a.unique)
    ensures TakeSealed(PutSealed(a, tail)) == Ok((a, tail))
  {
    hide TakeU16, TakeU32, BE16, BE32, UnmarshalTPM2B, TPM2B;
    var b5 := TPM2B(a.unique) + tail;
    var b4 := BE16(a.scheme) + b5;
    var b3 := TPM2B(a.policy) + b4;
    TakeU16Put(ALG_KEYEDHASH, BE16(a.nameAlg) + (BE32(a.attributes) + b3));
    TakeU16Put(a.nameAlg, BE32(a.attributes) + b3);
    TakeU32Put(a.attributes, b3);
    UnmarshalMarshal(a.policy, b4);
    TakeU16Put(a.scheme, b5);
    UnmarshalMarshal(a.unique, tail);
  }

  /** The object TPM2_Create makes: fixed to this TPM, usable through its policy only. */
  function SealArea(policyDigest: Bytes): SealedArea {
    SealedArea(ALG_SHA256, SEAL_ATTRIBUTES, policyDigest, ALG_NULL, [])
  }

  /** The object the control plane wraps: importable, usable through its policy only. */
  function ImportSealArea(policyDigest: Bytes, unique: Bytes): SealedArea {
    SealedArea(ALG_SHA256, IMPORT_SEAL_ATTRIBUTES, policyDigest, ALG_NULL, unique)
  }

  function MarshalSealPublic(policyDigest: Bytes): Bytes
    requires |policyDigest| <= 0xFF00
  {
    TPM2B(PutSealed(SealArea(policyDigest), []))
  }

  function MarshalImportSealPublic(policyDigest: Bytes, unique: Bytes): Bytes
    requires Fits(policyDigest) && Fits(unique)
  {
    PutSealed(ImportSealArea(policyDigest, unique), [])
  }

  /** TPMT_SENSITIVE of a keyed-hash object. */
  datatype Sensitive = Sensitive(authValue: Bytes, seedValue: Bytes, data: Bytes)

  function PutSensitive(s: Sensitive): (b: Bytes)
    requires Fits(s.authValue) && Fits(s.seedValue) && Fits(s.data)
    ensures |b| == 8 + |s.authValue| + |s.seedValue| + |s.data|
  {
    BE16(ALG_KEYEDHASH) + (TPM2B(s.authValue) + (TPM2B(s.seedValue) + TPM2B(s.data)))
  }

  /** The whole of b as a TPMT_SENSITIVE; trailing octets are refused. */
  function TakeSensitive(b: Bytes): Result<Sensitive> {
    var (sensitiveType, b1) :- TakeU16(b);
    if sensitiveType != ALG_KEYEDHASH then Err(BadStructure)
    else
      var (authValue, b2) :- UnmarshalTPM2B(b1);
      var (seedValue, b3) :- UnmarshalTPM2B(b2);
      var (data, b4) :- UnmarshalTPM2B(b3);
      if b4 != [] then Err(BadStructure) else Ok(Sensitive(authValue, seedValue, data))
  }

  lemma TakeSensitivePut(s: Sensitive)
    requires Fits(s.authValue) && Fits(s.seedValue) && Fits(s.data)
    ensures TakeSensitive(PutSensitive(s)) == Ok(s)
  {
    TakeU16Put(ALG_KEYEDHASH, TPM2B(s.authValue) + (TPM2B(s.seedValue) + TPM2B(s.data)));
    UnmarshalMarshal(s.authValue, TPM2B(s.seedValue) + TPM2B(s.data));
    UnmarshalMarshal(s.seedValue, TPM2B(s.data));
    UnmarshalMarshal(s.data, []);
    assert TPM2B(s.data) + [] == TPM2B(s.data);
    hide TakeU16, UnmarshalTPM2B, BE16, TPM2B;
  }

  function MarshalSealSensitive(seedValue: Bytes, secret: Bytes): (b: Bytes)
    requires Fits(seedValue) && Fits(secret)
    ensures |b| == 8 + |seedValue| + |secret|
  {
    PutSensitive(Sensitive([], seedValue, secret))
  }

  // ---------------------------------------------------------------------
  // The areas in octets
  // ---------------------------------------------------------------------

  /** The sealed object's template: size 46; keyed hash, SHA-256, fixedTPM and fixedParent, policy, no scheme, no unique. */
  lemma SealPublicOctets(policyDigest: Digest)
    ensures MarshalSealPublic(policyDigest)
            == [0, 46] + ([0x00, 0x08, 0x00, 0x0B, 0, 0, 0, 0x12] + ([0, 32] + (policyDigest + [0x00, 0x10, 0, 0])))
  {
    SealedOctets(SealArea(policyDigest), 0, 0, 0, 0x12);
    var inner := PutSealed(SealArea(policyDigest), []);
    TPM2BOctets(inner, 0, 46);
    TPM2BOctets([], 0, 0);
    hide PutSealed, TPM2B;
    assert [0, 0] + [] == [0, 0];
    assert [0x00, 0x10] + [0, 0] == [0x00, 0x10, 0, 0];
  }

  lemma SealedOctets(a: SealedArea, a3: byte, a2: byte, a1: byte, a0: byte)
    requires a.nameAlg == 0x0B && a.scheme == 0x10 && |a.policy| == 32 && Fits(a.unique)
    requires a.attributes == a3 as int * 0x100_0000 + a2 as int * 0x1_0000 + a1 as int * 0x100 + a0 as int
    ensures PutSealed(a, [])
            == [0x00, 0x08, 0x00, 0x0B, a3, a2, a1, a0] + ([0, 32] + (a.policy + ([0x00, 0x10] + TPM2B(a.unique))))
  {
    BE16Octets(ALG_KEYEDHASH, 0x00, 0x08);
    BE16Octets(a.nameAlg, 0x00, 0x0B);
    BE32Octets(a.attributes, a3, a2, a1, a0);
    BE16Octets(a.scheme, 0x00, 0x10);
    TPM2BOctets(a.policy, 0, 32);
    hide BE16, BE32, TPM2B;
    var u := [0x00, 0x10] + TPM2B(a.unique);
    assert TPM2B(a.unique) + [] == TPM2B(a.unique);
    Reassociate([0, 32], a.policy, u);
    var rest := [0, 32] + (a.policy + u);
    var attrs := [a3, a2, a1, a0];
    assert [0x00, 0x08] + ([0x00, 0x0B] + (attrs + rest)) == [0x00, 0x08, 0x00, 0x0B, a3, a2, a1, a0] + rest;
  }

  /** The wrapped object's area: no attributes, and unique filled in. */
  lemma ImportSealPublicOctets(policyDigest: Digest, unique: Digest)
    ensures MarshalImportSealPublic(policyDigest, unique)
            == [0x00, 0x08, 0x00, 0x0B, 0, 0, 0, 0] + ([0, 32] + (policyDigest + ([0x00, 0x10] + ([0, 32] + unique))))
  {
    SealedOctets(ImportSealArea(policyDigest, unique), 0, 0, 0, 0);
    TPM2BOctets(unique, 0, 32);
    hide PutSealed, TPM2B;
  }

  /** Its sensitive area: keyed hash, empty authValue, seedValue, data. */
  lemma SealSensitiveOctets(seedValue: Digest, secret: Bytes)
    requires Fits(secret)
    ensures MarshalSealSensitive(seedValue, secret) == [0x00, 0x08, 0, 0] + ([0, 32] + (seedValue + TPM2B(secret)))
  {
    BE16Octets(ALG_KEYEDHASH, 0x00, 0x08);
    TPM2BOctets([], 0, 0);
    TPM2BOctets(seedValue, 0, 32);
    hide BE16, TPM2B;
    var rest := [0, 32] + (seedValue + TPM2B(secret));
    Reassociate([0, 32], seedValue, TPM2B(secret));
    assert [0, 0] + [] == [0, 0];
    assert [0x00, 0x08] + ([0, 0] + rest) == [0x00, 0x08, 0, 0] + rest;
  }

  /** The three ECC templates: type, nameAlg, attributes, policy, symmetric, scheme, curve, kdf, then x and y. */
  lemma AkTemplateOctets(point: EccPoint)
    requires Fits(point.x) && Fits(point.y)
    ensures PutArea(AkArea(point), [])
            == [0x00, 0x23, 0x00, 0x0B, 0x00, 0x05, 0x00, 0x72, 0, 0] + ([0x00, 0x10, 0x00, 0x18, 0x00, 0x0B, 0x00, 0x03, 0x00, 0x10] + (TPM2B(point.x) + TPM2B(point.y)))
  {
    BE16Octets(ALG_ECDSA, 0x00, 0x18);
    AreaOctets(AkArea(point), 0x00, 0x05, 0x00, 0x72);
    BE16Octets(ALG_SHA256, 0x00, 0x0B);
    BE16Octets(ALG_NULL, 0x00, 0x10);
    BE16Octets(ECC_NIST_P256, 0x00, 0x03);
    TPM2BOctets([], 0, 0);
    hide BE16, TPM2B, PutArea;
    assert [0, 0] + [] == [0, 0];
  }

  lemma StorageParmsOctets(tail: Bytes)
    ensures PutParms(EccParms(STORAGE_CIPHER, NoScheme, ECC_NIST_P256, NoScheme), tail)
            == [0x00, 0x06, 0x00, 0x80, 0x00, 0x43, 0x00, 0x10, 0x00, 0x03, 0x00, 0x10] + tail
  {
    BE16Octets(ALG_AES, 0x00, 0x06);
    BE16Octets(128, 0x00, 0x80);
    BE16Octets(ALG_CFB, 0x00, 0x43);
    BE16Octets(ALG_NULL, 0x00, 0x10);
    BE16Octets(ECC_NIST_P256, 0x00, 0x03);
    hide BE16;
  }

  lemma StorageTemplateOctets(point: EccPoint)
    requires Fits(point.x) && Fits(point.y)
    ensures PutArea(StorageArea(point), [])
            == [0x00, 0x23, 0x00, 0x0B, 0x00, 0x03, 0x00, 0x72]
               + ([0, 0] + ([0x00, 0x06, 0x00, 0x80, 0x00, 0x43, 0x00, 0x10, 0x00, 0x03, 0x00, 0x10] + (TPM2B(point.x) + TPM2B(point.y))))
  {
    AreaOctets(StorageArea(point), 0x00, 0x03, 0x00, 0x72);
    StorageParmsOctets(TPM2B(point.x) + TPM2B(point.y));
    TPM2BOctets([], 0, 0);
    hide TPM2B, PutArea, PutParms;
    assert [0, 0] + [] == [0, 0];
  }

  lemma EkTemplateOctets(ekAuthPolicy: Digest, point: EccPoint)
    requires Fits(point.x) && Fits(point.y)
    ensures PutArea(EkArea(ekAuthPolicy, point), [])
            == [0x00, 0x23, 0x00, 0x0B, 0x00, 0x03, 0x00, 0xB2]
               + (([0, 32] + ekAuthPolicy) + ([0x00, 0x06, 0x00, 0x80, 0x00, 0x43, 0x00, 0x10, 0x00, 0x03, 0x00, 0x10] + (TPM2B(point.x) + TPM2B(point.y))))
  {
    AreaOctets(EkArea(ekAuthPolicy, point), 0x00, 0x03, 0x00, 0xB2);
    StorageParmsOctets(TPM2B(point.x) + TPM2B(point.y));
    TPM2BOctets(ekAuthPolicy, 0, 32);
    hide TPM2B, PutArea, PutParms;
  }

  lemma AreaOctets(a: EccArea, a3: byte, a2: byte, a1: byte, a0: byte)
    requires a.objectType == 0x23 && a.nameAlg == 0x0B && ValidArea(a)
    requires a.attributes == a3 as int * 0x100_0000 + a2 as int * 0x1_0000 + a1 as int * 0x100 + a0 as int
    ensures PutArea(a, [])
            == [0x00, 0x23, 0x00, 0x0B, a3, a2, a1, a0] + (TPM2B(a.policy) + PutParms(a.parms, TPM2B(a.point.x) + TPM2B(a.point.y)))
  {
    BE16Octets(a.objectType, 0x00, 0x23);
    BE16Octets(a.nameAlg, 0x00, 0x0B);
    BE32Octets(a.attributes, a3, a2, a1, a0);
    hide BE16, BE32, TPM2B, PutParms;
    assert TPM2B(a.point.y) + [] == TPM2B(a.point.y);
    var rest := TPM2B(a.policy) + PutParms(a.parms, TPM2B(a.point.x) + TPM2B(a.point.y));
    assert [0x00, 0x23] + ([0x00, 0x0B] + ([a3, a2, a1, a0] + rest)) == [0x00, 0x23, 0x00, 0x0B, a3, a2, a1, a0] + rest;
  }

  // ---------------------------------------------------------------------
  // Names
  // ---------------------------------------------------------------------

  const NAME_BYTES := 34

  /** nameAlg, then the digest of the whole public area. */
  function NameOf(c: Suite, area: Bytes): (n: Bytes)
    ensures |n| == NAME_BYTES
  {
    BE16(ALG_SHA256) + c.Sha(area)
  }

  /** ObjectName of name.go: the Name, or why there is none. */
  function ObjectName(c: Suite, area: Bytes): Result<Bytes> {
    match GetU16(area, 2)
    case None => Err(ShortBuffer)
    case Some(nameAlg) => if nameAlg != ALG_SHA256 then Err(UnsupportedNameAlg) else Ok(NameOf(c, area))
  }

  /**
    ObjectName from the area's octets: the algorithm id at offset 2 must be 00 0B,
    and the Name is that id, then the digest of the whole area.
   */
  lemma ObjectNameOctets(c: Suite, area: Bytes)
    ensures ObjectName(c, area)
            == if |area| < 4 then Err(ShortBuffer)
               else if area[2..4] == [0x00, 0x0B] then Ok(area[2..4] + c.Sha(area))
               else Err(UnsupportedNameAlg)
    ensures NameOf(c, area) == [0x00, 0x0B] + c.Sha(area)
  {
    BE16Octets(ALG_SHA256, 0, 0x0B);
    if |area| >= 4 {
      BE16Write(area, 2);
      BE16Octets(U16At(area, 2), area[2], area[3]);
    }
  }

  /** Equal Names mean equal areas, or a SHA-256 collision. */
  lemma NameBinding(c: Suite, area: Bytes, other: Bytes)
    requires NameOf(c, area) == NameOf(c, other)
    ensures area == other || c.ShaCollision(area, other)
  {
    SplitEqual(BE16(ALG_SHA256), c.Sha(area), BE16(ALG_SHA256), c.Sha(other));
  }

  /** The areas this package builds all have a Name. */
  lemma SealedName(c: Suite, a: SealedArea, tail: Bytes)
    requires Fits(a.policy) && Fits(a.unique) && a.nameAlg == ALG_SHA256
    ensures ObjectName(c, PutSealed(a, tail)) == Ok(NameOf(c, PutSealed(a, tail)))
  {
    var b := PutSealed(a, tail);
    BE16Read(ALG_SHA256, b[4..]);
  }
}
