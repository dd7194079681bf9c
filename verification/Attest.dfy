/**
  Quotes: the TPMS_ATTEST parser and the off-TPM verification (verify.go), and
  the TPM2_Quote response (attest.go).
 */
module Attest {
  import opened Wire
  import opened Bits
  import opened Crypto
  import opened Pcr
  import opened PublicArea
  import opened OuterWrap

  const ATTEST_MAGIC: U32 := 0xFF54_4347
  const ST_ATTEST_QUOTE: U16 := 0x8018
  /** clockInfo (17 octets) and firmwareVersion (8 octets). */
  const CLOCK_BYTES := 25

  datatype AttestInfo = AttestInfo(extraData: Bytes, pcrSelect: seq<PCRSelection>, pcrDigest: Bytes)

  datatype Signature = Signature(r: Bytes, s: Bytes)

  // ---------------------------------------------------------------------
  // TPMS_ATTEST of type QUOTE
  // ---------------------------------------------------------------------

  /** The behind-the-type part: names, clock, selection, digest. */
  function TakeQuoteBody(b: Bytes): Result<AttestInfo> {
    var (_, b1) :- UnmarshalTPM2B(b);
    var (extra, b2) :- UnmarshalTPM2B(b1);
    if |b2| < CLOCK_BYTES then Err(ShortBuffer)
    else
      var (sel, b3) :- ParseList(b2[CLOCK_BYTES..]);
      var (digest, _) :- UnmarshalTPM2B(b3);
      Ok(AttestInfo(extra, sel, digest))
  }

  function ParseAttestSpec(data: Bytes): Result<AttestInfo> {
    var (magic, b1) :- TakeU32(data);
    if magic != ATTEST_MAGIC then Err(BadMagic)
    else
      var (typ, b2) :- TakeU16(b1);
      if typ != ST_ATTEST_QUOTE then Err(NotQuote) else TakeQuoteBody(b2)
  }

  method ParseAttest(data: Bytes) returns (r: Result<AttestInfo>)
    ensures r == ParseAttestSpec(data)
  {
    hide UnmarshalTPM2B, ParseList, TakeU16, TakeU32, U16At, U32At;
    assert data[0..] == data;
    TakeU32At(data, 0);
    var magic := GetU32(data, 0);
    if magic.None? {
      return Err(ShortBuffer);
    }
    if magic.value != ATTEST_MAGIC {
      return Err(BadMagic);
    }
    TakeU16At(data, 4);
    var typ := GetU16(data, 4);
    if typ.None? {
      return Err(ShortBuffer);
    }
    if typ.value != ST_ATTEST_QUOTE {
      return Err(NotQuote);
    }
    var signer := UnmarshalTPM2B(data[6..]);
    if signer.Err? {
      return Err(signer.error);
    }
    var after := signer.value.1;
    var extra := UnmarshalTPM2B(after);
    if extra.Err? {
      return Err(extra.error);
    }
    after := extra.value.1;
    if |after| < CLOCK_BYTES {
      return Err(ShortBuffer);
    }
    after := after[CLOCK_BYTES..];
    var sel := ParsePCRSelectionList(after);
    if sel.Err? {
      return Err(sel.error);
    }
    after := sel.value.1;
    var digest := UnmarshalTPM2B(after);
    if digest.Err? {
      return Err(digest.error);
    }
    r := Ok(AttestInfo(extra.value.0, sel.value.0, digest.value.0));
  }

  /** What a TPM lays out and signs. */
  datatype Quoted = Quoted(signer: Bytes, extraData: Bytes, clock: Bytes, sel: seq<PCRSelection>, pcrDigest: Bytes)

  predicate ValidQuoted(q: Quoted) {
    Fits(q.signer) && Fits(q.extraData) && |q.clock| == CLOCK_BYTES && |q.sel| < 0x1_0000_0000 && Fits(q.pcrDigest)
  }

  function PutQuoteBody(q: Quoted, tail: Bytes): Bytes
    requires ValidQuoted(q)
  {
    TPM2B(q.signer) + (TPM2B(q.extraData) + (q.clock + (MarshalList(q.sel) + (TPM2B(q.pcrDigest) + tail))))
  }

  function PutQuoted(q: Quoted, tail: Bytes): (b: Bytes)
    requires ValidQuoted(q)
    ensures |b| == 41 + |q.signer| + |q.extraData| + 6 * |q.sel| + |q.pcrDigest| + |tail|
  {
    BE32(ATTEST_MAGIC) + (BE16(ST_ATTEST_QUOTE) + PutQuoteBody(q, tail))
  }

  lemma TakeQuoteBodyPut(q: Quoted, tail: Bytes)
    requires ValidQuoted(q)
    ensures TakeQuoteBody(PutQuoteBody(q, tail)) == Ok(AttestInfo(q.extraData, NormalList(q.sel), q.pcrDigest))
  {
    hide TPM2B, UnmarshalTPM2B, MarshalList, ParseList, NormalList;
    var b3 := TPM2B(q.pcrDigest) + tail;
    var b2 := q.clock + (MarshalList(q.sel) + b3);
    UnmarshalMarshal(q.signer, TPM2B(q.extraData) + b2);
    UnmarshalMarshal(q.extraData, b2);
    assert b2[CLOCK_BYTES..] == MarshalList(q.sel) + b3;
    ParseMarshalledWhole(q.sel, b3);
    UnmarshalMarshal(q.pcrDigest, tail);
  }

  /** An attest laid out by a TPM parses to its nonce, normal-form selection and digest. */
  lemma ParseAttestPut(q: Quoted, tail: Bytes)
    requires ValidQuoted(q)
    ensures ParseAttestSpec(PutQuoted(q, tail)) == Ok(AttestInfo(q.extraData, NormalList(q.sel), q.pcrDigest))
  {
    hide BE16, BE32, TakeU16, TakeU32, TakeQuoteBody, PutQuoteBody, NormalList;
    TakeU32Put(ATTEST_MAGIC, BE16(ST_ATTEST_QUOTE) + PutQuoteBody(q, tail));
    TakeU16Put(ST_ATTEST_QUOTE, PutQuoteBody(q, tail));
    TakeQuoteBodyPut(q, tail);
  }

  // ---------------------------------------------------------------------
  // VerifyQuote
  // ---------------------------------------------------------------------

  function VerifyQuoteSpec(c: Suite, ak: EccPoint, quoted: Bytes, sig: Signature, expected: seq<Bytes>): Result<AttestInfo> {
    var info :- ParseAttestSpec(quoted);
    if !c.ecdsaVerify(PointOf(ak), c.Sha(quoted), BigEndian(sig.r), BigEndian(sig.s)) then Err(SigInvalid)
    else if c.Sha(Concat(expected)) != info.pcrDigest then Err(PcrDigestMismatch)
    else Ok(info)
  }

  method BytesEqual(a: Bytes, b: Bytes) returns (same: bool)
    ensures same <==> a == b
  {
    if |a| != |b| {
      return false;
    }
    for i := 0 to |a|
      invariant a[..i] == b[..i]
    {
      if a[i] != b[i] {
        return false;
      }
    }
    same := true;
  }

  method VerifyQuote(c: Suite, ak: EccPoint, quoted: Bytes, sig: Signature, expected: seq<Bytes>) returns (r: Result<AttestInfo>)
    ensures r == VerifyQuoteSpec(c, ak, quoted, sig, expected)
  {
    hide ParseAttestSpec, PointOf, BigEndian;
    var info := ParseAttest(quoted);
    if info.Err? {
      return info;
    }
    var digest := c.Sha(quoted);
    if !c.ecdsaVerify(PointOf(ak), digest, BigEndian(sig.r), BigEndian(sig.s)) {
      return Err(SigInvalid);
    }
    var h := new HashState(c);
    for i := 0 to |expected|
      invariant h.written == Concat(expected[..i])
    {
      h.Write(expected[i]);
      ConcatAppend(expected[..i], expected[i]);
      assert expected[..i + 1] == expected[..i] + [expected[i]];
    }
    assert expected[..|expected|] == expected;
    var recomputed := h.Sum();
    var same := BytesEqual(recomputed, info.value.pcrDigest);
    if !same {
      return Err(PcrDigestMismatch);
    }
    r := info;
  }

  /** The signature of scalar d as fixed-width TPM2B contents. */
  function SignatureBy(c: Suite, d: nat, message: Bytes): (sig: Signature)
    ensures |sig.r| == FIELD_BYTES && |sig.s| == FIELD_BYTES
  {
    var (r, s) := c.ecdsaSign(d, c.Sha(message));
    Signature(FixedBE(r, FIELD_BYTES), FixedBE(s, FIELD_BYTES))
  }

  /**
    A quote signed by the AK is accepted exactly when the expected values hash to
    the quoted digest, and then yields the nonce and the normal form of the
    selection. The AK's point may be encoded with or without leading zeros.
   */
  lemma SignedQuoteVerifies(c: Suite, d: nat, ak: EccPoint, q: Quoted, expected: seq<Bytes>)
    requires c.Lawful() && c.LawfulSignatures() && c.IsScalar(d) && PointOf(ak) == c.Public(d) && ValidQuoted(q)
    ensures VerifyQuoteSpec(c, ak, PutQuoted(q, []), SignatureBy(c, d, PutQuoted(q, [])), expected)
            == if c.Sha(Concat(expected)) == q.pcrDigest then Ok(AttestInfo(q.extraData, NormalList(q.sel), q.pcrDigest))
               else Err(PcrDigestMismatch)
  {
    var m := PutQuoted(q, []);
    ParseAttestPut(q, []);
    var (r, s) := c.ecdsaSign(d, c.Sha(m));
    assert c.ecdsaVerify(c.Public(d), c.Sha(m), r, s);
    FixedBERead(r, FIELD_BYTES);
    FixedBERead(s, FIELD_BYTES);
    hide PutQuoted, ParseAttestSpec, NormalList, FixedPoint, PointOf, FixedBE, BigEndian, Pow256;
  }

  /**
    Soundness: an accepted quote carries the TPM's magic and type, a signature
    that verifies under the AK, and a digest of the expected values; if that
    digest was taken over other PCR values, SHA-256 collides on the two.
   */
  lemma VerifiedQuoteMeans(c: Suite, ak: EccPoint, quoted: Bytes, sig: Signature, expected: seq<Bytes>, values: Bytes)
    requires VerifyQuoteSpec(c, ak, quoted, sig, expected).Ok?
    ensures |quoted| >= 6 && U32At(quoted, 0) == ATTEST_MAGIC && U16At(quoted, 4) == ST_ATTEST_QUOTE
    ensures c.ecdsaVerify(PointOf(ak), c.Sha(quoted), BigEndian(sig.r), BigEndian(sig.s))
    ensures VerifyQuoteSpec(c, ak, quoted, sig, expected).value.pcrDigest == c.Sha(Concat(expected))
    ensures c.Sha(values) == VerifyQuoteSpec(c, ak, quoted, sig, expected).value.pcrDigest ==>
              Concat(expected) == values || c.ShaCollision(Concat(expected), values)
  {
    hide TakeQuoteBody, PointOf, BigEndian;
    TakeU32At(quoted, 0);
    TakeU16At(quoted, 4);
    assert quoted[0..] == quoted;
  }

  // ---------------------------------------------------------------------
  // The TPM2_CreatePrimary response
  // ---------------------------------------------------------------------

  /** Handle, parameterSize, then outPublic, of which only the point is kept. */
  function CreatePrimaryResponse(rp: Bytes): Result<(U32, EccPoint)> {
    var (handle, b1) :- TakeU32(rp);
    var (_, b2) :- TakeU32(b1);
    var (area, _) :- UnmarshalTPM2B(b2);
    var point :- PointIn(area);
    Ok((handle, point))
  }

  method ParseCreatePrimaryResponse(rp: Bytes) returns (r: Result<(U32, EccPoint)>)
    ensures r == CreatePrimaryResponse(rp)
  {
    hide TakeU32, UnmarshalTPM2B, PointIn, U32At;
    assert rp[0..] == rp;
    TakeU32At(rp, 0);
    var handle := GetU32(rp, 0);
    if handle.None? {
      return Err(ShortBuffer);
    }
    TakeU32At(rp, 4);
    if GetU32(rp, 4).None? {
      return Err(ShortBuffer);
    }
    var area := UnmarshalTPM2B(rp[8..]);
    if area.Err? {
      return Err(area.error);
    }
    var point := ParseTPMTPublicECCPoint(area.value.0);
    if point.Err? {
      return Err(point.error);
    }
    r := Ok((handle.value, point.value));
  }

  /** A TPM that answers with any ECC area is read back to its handle and the area's point. */
  lemma CreatePrimaryResponsePut(handle: U32, size: U32, a: EccArea, inner: Bytes, tail: Bytes)
    requires ValidArea(a) && Fits(PutArea(a, inner))
    ensures CreatePrimaryResponse(BE32(handle) + (BE32(size) + (TPM2B(PutArea(a, inner)) + tail))) == Ok((handle, a.point))
  {
    var b2 := TPM2B(PutArea(a, inner)) + tail;
    TakeU32Put(handle, BE32(size) + b2);
    TakeU32Put(size, b2);
    UnmarshalMarshal(PutArea(a, inner), tail);
    TakeAreaPut(a, inner);
    hide BE32, TakeU32, TPM2B, UnmarshalTPM2B, PutArea, TakeArea;
  }

  // ---------------------------------------------------------------------
  // The TPM2_Quote response
  // ---------------------------------------------------------------------

  function ParseQuoteResponse(rp: Bytes): Result<(Bytes, Signature)> {
    var (_, b1) :- TakeU32(rp);
    var (quoted, b2) :- UnmarshalTPM2B(b1);
    var (sigAlg, b3) :- TakeU16(b2);
    if sigAlg != ALG_ECDSA then Err(UnexpectedSigAlg)
    else
      var (_, b4) :- TakeU16(b3);
      var (r, b5) :- UnmarshalTPM2B(b4);
      var (s, _) :- UnmarshalTPM2B(b5);
      Ok((quoted, Signature(r, s)))
  }

  function PutQuoteResponse(parameterSize: U32, quoted: Bytes, sig: Signature): Bytes
    requires Fits(quoted) && Fits(sig.r) && Fits(sig.s)
  {
    BE32(parameterSize) + (TPM2B(quoted) + (BE16(ALG_ECDSA) + (BE16(ALG_SHA256) + (TPM2B(sig.r) + (TPM2B(sig.s) + [])))))
  }

  lemma ParseQuoteResponsePut(parameterSize: U32, quoted: Bytes, sig: Signature)
    requires Fits(quoted) && Fits(sig.r) && Fits(sig.s)
    ensures ParseQuoteResponse(PutQuoteResponse(parameterSize, quoted, sig)) == Ok((quoted, sig))
  {
    hide BE16, BE32, TakeU16, TakeU32, TPM2B, UnmarshalTPM2B;
    var b4 := TPM2B(sig.r) + (TPM2B(sig.s) + []);
    var b2 := BE16(ALG_ECDSA) + (BE16(ALG_SHA256) + b4);
    TakeU32Put(parameterSize, TPM2B(quoted) + b2);
    UnmarshalMarshal(quoted, b2);
    TakeU16Put(ALG_ECDSA, BE16(ALG_SHA256) + b4);
    TakeU16Put(ALG_SHA256, b4);
    UnmarshalMarshal(sig.r, TPM2B(sig.s) + []);
    UnmarshalMarshal(sig.s, []);
  }

  /**
    Any signature algorithm but ECDSA (00 18) is refused as such, and nothing else
    is: the id stands behind parameterSize and the size-prefixed attest.
   */
  lemma OtherSignatureRefused(rp: Bytes)
    ensures ParseQuoteResponse(rp) == Err(UnexpectedSigAlg) <==>
              |rp| >= 6 && var end := 6 + 0x100 * rp[4] as int + rp[5] as int; |rp| >= end + 2 && rp[end..end + 2] != [0x00, 0x18]
  {
    if |rp| >= 6 {
      var b1 := rp[4..];
      var n: nat := U16At(b1, 0);
      assert n == 0x100 * rp[4] as int + rp[5] as int;
      if |rp| >= 6 + n {
        var b2 := b1[2 + n..];
        assert UnmarshalTPM2B(b1) == Ok((b1[2..2 + n], b2));
        if |b2| >= 2 {
          SigAlgOctets(b2);
          assert b2[..2] == rp[6 + n..8 + n];
        }
      }
    }
    hide U16At;
  }

  lemma SigAlgOctets(b: Bytes)
    requires |b| >= 2
    ensures U16At(b, 0) == ALG_ECDSA <==> b[..2] == [0x00, 0x18]
  {
  }

  /** The layouts a TPM answers in, octets and order spelled out. */
  lemma QuotedOctets(q: Quoted, tail: Bytes)
    requires ValidQuoted(q)
    ensures |q.clock| == 17 + 8
    ensures PutQuoted(q, tail)
            == [0xFF, 0x54, 0x43, 0x47] + ([0x80, 0x18] + (TPM2B(q.signer) + (TPM2B(q.extraData) + (q.clock + (MarshalList(q.sel) + (TPM2B(q.pcrDigest) + tail))))))
  {
    BE32Octets(ATTEST_MAGIC, 0xFF, 0x54, 0x43, 0x47);
    BE16Octets(ST_ATTEST_QUOTE, 0x80, 0x18);
    hide BE16, BE32, TPM2B, MarshalList;
  }

  lemma QuoteResponseOctets(size: U32, quoted: Bytes, sig: Signature)
    requires Fits(quoted) && Fits(sig.r) && Fits(sig.s)
    ensures PutQuoteResponse(size, quoted, sig)
            == BE32(size) + (TPM2B(quoted) + ([0x00, 0x18] + ([0x00, 0x0B] + (TPM2B(sig.r) + (TPM2B(sig.s) + [])))))
  {
    BE16Octets(ALG_ECDSA, 0x00, 0x18);
    BE16Octets(ALG_SHA256, 0x00, 0x0B);
    hide BE16, BE32, TPM2B;
  }
}
