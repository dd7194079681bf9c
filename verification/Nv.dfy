/** The NV public area codec (nv.go). */
module Nv {
  import opened Wire
  import opened PublicArea

  datatype NVPublic = NVPublic(index: U32, nameAlg: U16, attributes: U32, authPolicy: Bytes, dataSize: U16)

  predicate Marshallable(p: NVPublic) {
    |p.authPolicy| + 14 <= 0xFFFF
  }

  /** TPMS_NV_PUBLIC followed by other octets. */
  function PutNVPublic(p: NVPublic, tail: Bytes): Bytes
    requires Fits(p.authPolicy)
  {
    BE32(p.index) + (BE16(p.nameAlg) + (BE32(p.attributes) + (TPM2B(p.authPolicy) + (BE16(p.dataSize) + tail))))
  }

  function MarshalNVPublic(p: NVPublic): Bytes
    requires Marshallable(p)
  {
    TPM2B(PutNVPublic(p, []))
  }

  function ParseNVPublic(b: Bytes): Result<(NVPublic, Bytes)> {
    match (GetU32(b, 0), GetU16(b, 4), GetU32(b, 6))
    case (Some(index), Some(nameAlg), Some(attributes)) =>
      var (policy, rest) :- UnmarshalTPM2B(b[10..]);
      (match GetU16(rest, 0)
       case None => Err(ShortBuffer)
       case Some(dataSize) => Ok((NVPublic(index, nameAlg, attributes, policy, dataSize), rest[2..])))
    case _ => Err(ShortBuffer)
  }

  /** The same parse, taken field by field off the front. */
  function TakeNVPublic(b: Bytes): Result<(NVPublic, Bytes)> {
    var (index, b1) :- TakeU32(b);
    var (nameAlg, b2) :- TakeU16(b1);
    var (attributes, b3) :- TakeU32(b2);
    var (policy, b4) :- UnmarshalTPM2B(b3);
    var (dataSize, b5) :- TakeU16(b4);
    Ok((NVPublic(index, nameAlg, attributes, policy, dataSize), b5))
  }

  lemma ParseIsTake(b: Bytes)
    ensures ParseNVPublic(b) == TakeNVPublic(b)
  {
    assert b[0..] == b;
    TakeU32At(b, 0);
    if |b| >= 4 {
      TakeU16At(b, 4);
      if |b| >= 6 {
        TakeU32At(b, 6);
        if |b| >= 10 {
          var policy := UnmarshalTPM2B(b[10..]);
          if policy.Ok? {
            assert policy.value.1[0..] == policy.value.1;
            TakeU16At(policy.value.1, 0);
          }
        }
      }
    }
    hide TakeU16, TakeU32, U16At, U32At, UnmarshalTPM2B;
  }

  /** Parsing what was marshalled gives it back, and the octets behind it untouched. */
  lemma ParsePut(p: NVPublic, tail: Bytes)
    requires Fits(p.authPolicy)
    ensures ParseNVPublic(PutNVPublic(p, tail)) == Ok((p, tail))
  {
    ParseIsTake(PutNVPublic(p, tail));
    hide ParseNVPublic, BE16, BE32, TakeU16, TakeU32, TPM2B, UnmarshalTPM2B;
    var b4 := BE16(p.dataSize) + tail;
    var b3 := TPM2B(p.authPolicy) + b4;
    TakeU32Put(p.index, BE16(p.nameAlg) + (BE32(p.attributes) + b3));
    TakeU16Put(p.nameAlg, BE32(p.attributes) + b3);
    TakeU32Put(p.attributes, b3);
    UnmarshalMarshal(p.authPolicy, b4);
    TakeU16Put(p.dataSize, tail);
  }

  /** Re-marshalling a successful parse reproduces exactly the octets consumed. */
  lemma PutParsed(b: Bytes)
    requires ParseNVPublic(b).Ok?
    ensures Fits(ParseNVPublic(b).value.0.authPolicy)
    ensures b == PutNVPublic(ParseNVPublic(b).value.0, ParseNVPublic(b).value.1)
  {
    ParseIsTake(b);
    hide ParseNVPublic, BE16, BE32, TakeU16, TakeU32, TPM2B, UnmarshalTPM2B;
    PutTakeU32(b);
    var b1 := TakeU32(b).value.1;
    PutTakeU16(b1);
    var b2 := TakeU16(b1).value.1;
    PutTakeU32(b2);
    var b3 := TakeU32(b2).value.1;
    MarshalUnmarshal(b3);
    PutTakeU16(UnmarshalTPM2B(b3).value.1);
  }

  /** The size-prefixed form NV_ReadPublic unwraps before it parses. */
  lemma NVPublicRoundTrip(p: NVPublic, tail: Bytes)
    requires Marshallable(p)
    ensures UnmarshalTPM2B(MarshalNVPublic(p) + tail) == Ok((PutNVPublic(p, []), tail))
    ensures ParseNVPublic(PutNVPublic(p, [])) == Ok((p, []))
  {
    UnmarshalMarshal(PutNVPublic(p, []), tail);
    ParsePut(p, []);
  }

  /** The order on the wire. */
  lemma NVPublicOctets(p: NVPublic)
    requires Marshallable(p)
    ensures MarshalNVPublic(p)
            == TPM2B(BE32(p.index) + BE16(p.nameAlg) + BE32(p.attributes) + BE16(|p.authPolicy|) + p.authPolicy + BE16(p.dataSize))
  {
    hide BE16, BE32;
    var a, b, d, n, e := BE32(p.index), BE16(p.nameAlg), BE32(p.attributes), BE16(|p.authPolicy|), BE16(p.dataSize);
    assert e + [] == e;
    Reassociate(n, p.authPolicy, e);
    Reassociate(d, n + p.authPolicy, e);
    Reassociate(d, n, p.authPolicy);
    Reassociate(b, d + n + p.authPolicy, e);
    Reassociate(b, d + n, p.authPolicy);
    Reassociate(b, d, n);
    Reassociate(a, b + d + n + p.authPolicy, e);
    Reassociate(a, b + d + n, p.authPolicy);
    Reassociate(a, b + d, n);
    Reassociate(a, b, d);
    hide TPM2B;
  }
}
