/**
  Counted lists: the typed GetCapability decoders (capability.go) and the digest
  list of PCR_Read (commands.go). The count comes from the TPM as 32 bits; the
  loops end by the length of the reply instead.
 */
module Capability {
  import opened Wire
  import opened Pcr
  import opened PublicArea

  datatype TaggedProperty = TaggedProperty(property: U32, value: U32)
  datatype AlgProperty = AlgProperty(alg: U16, attributes: U32)

  const CAP_ALGS: U32 := 0
  const CAP_HANDLES: U32 := 1
  const CAP_TPM_PROPERTIES: U32 := 6

  /** The reply parameters of GetCapability: moreData, the echoed selector, the union member. */
  function CapabilityMember(rp: Bytes, capSel: U32): Result<Bytes> {
    var (_, data) :- TakeU8(rp);
    var (echoed, member) :- TakeU32(data);
    if echoed != capSel then Err(UnexpectedCapability) else Ok(member)
  }

  /** The member a TPM answers with is returned if and only if the selector is the one asked for. */
  lemma CapabilityMemberPut(more: byte, echoed: U32, member: Bytes, capSel: U32)
    ensures CapabilityMember([more] + (BE32(echoed) + member), capSel)
            == if echoed == capSel then Ok(member) else Err(UnexpectedCapability)
  {
    TakeU32Put(echoed, member);
    assert ([more] + (BE32(echoed) + member))[1..] == BE32(echoed) + member;
    hide BE32, TakeU32;
  }

  /** A counted list of `size`-octet entries fits in member. */
  predicate ListFits(member: Bytes, size: nat) {
    |member| >= 4 && |member| >= 4 + size * U32At(member, 0)
  }

  function TaggedAt(member: Bytes, off: nat): TaggedProperty
    requires off + 8 <= |member|
  {
    TaggedProperty(U32At(member, off), U32At(member, off + 4))
  }

  function AlgAt(member: Bytes, off: nat): AlgProperty
    requires off + 6 <= |member|
  {
    AlgProperty(U16At(member, off), U32At(member, off + 2))
  }

  /** TPML_TAGGED_TPM_PROPERTY: entry i stands at offset 4 + 8i. */
  function TaggedProperties(member: Bytes): (r: Result<seq<TaggedProperty>>)
    ensures r.Ok? ==> |member| >= 4 + 8 * |r.value|
  {
    if ListFits(member, 8) then Ok(seq(U32At(member, 0), i requires 0 <= i < U32At(member, 0) => TaggedAt(member, 4 + 8 * i)))
    else Err(ShortBuffer)
  }

  /** TPML_ALG_PROPERTY: entry i stands at offset 4 + 6i. */
  function AlgProperties(member: Bytes): (r: Result<seq<AlgProperty>>)
    ensures r.Ok? ==> |member| >= 4 + 6 * |r.value|
  {
    if ListFits(member, 6) then Ok(seq(U32At(member, 0), i requires 0 <= i < U32At(member, 0) => AlgAt(member, 4 + 6 * i)))
    else Err(ShortBuffer)
  }

  /** TPML_HANDLE: entry i stands at offset 4 + 4i. */
  function Handles(member: Bytes): (r: Result<seq<U32>>)
    ensures r.Ok? ==> |member| >= 4 + 4 * |r.value|
  {
    if ListFits(member, 4) then Ok(seq(U32At(member, 0), i requires 0 <= i < U32At(member, 0) => U32At(member, 4 + 4 * i)))
    else Err(ShortBuffer)
  }

  method ParseTaggedProperties(member: Bytes) returns (r: Result<seq<TaggedProperty>>)
    ensures r == TaggedProperties(member)
  {
    hide U32At;
    var n := GetU32(member, 0);
    if n.None? {
      return Err(ShortBuffer);
    }
    var off := 4;
    var out: seq<TaggedProperty> := [];
    var i := 0;
    while i < n.value
      invariant 0 <= i <= n.value && off == 4 + 8 * i <= |member| && |out| == i
      invariant forall k :: 0 <= k < i ==> out[k] == TaggedAt(member, 4 + 8 * k)
      decreases |member| - off
    {
      var property := GetU32(member, off);
      if property.None? {
        return Err(ShortBuffer);
      }
      var value := GetU32(member, off + 4);
      if value.None? {
        return Err(ShortBuffer);
      }
      out := out + [TaggedProperty(property.value, value.value)];
      off := off + 8;
      i := i + 1;
    }
    assert TaggedProperties(member).Ok? && out == TaggedProperties(member).value;
    r := Ok(out);
  }

  method ParseAlgProperties(member: Bytes) returns (r: Result<seq<AlgProperty>>)
    ensures r == AlgProperties(member)
  {
    hide U32At, U16At;
    var n := GetU32(member, 0);
    if n.None? {
      return Err(ShortBuffer);
    }
    var off := 4;
    var out: seq<AlgProperty> := [];
    var i := 0;
    while i < n.value
      invariant 0 <= i <= n.value && off == 4 + 6 * i <= |member| && |out| == i
      invariant forall k :: 0 <= k < i ==> out[k] == AlgAt(member, 4 + 6 * k)
      decreases |member| - off
    {
      var alg := GetU16(member, off);
      if alg.None? {
        return Err(ShortBuffer);
      }
      var attrs := GetU32(member, off + 2);
      if attrs.None? {
        return Err(ShortBuffer);
      }
      out := out + [AlgProperty(alg.value, attrs.value)];
      off := off + 6;
      i := i + 1;
    }
    assert AlgProperties(member).Ok? && out == AlgProperties(member).value;
    r := Ok(out);
  }

  method ParseHandles(member: Bytes) returns (r: Result<seq<U32>>)
    ensures r == Handles(member)
  {
    hide U32At;
    var n := GetU32(member, 0);
    if n.None? {
      return Err(ShortBuffer);
    }
    var off := 4;
    var out: seq<U32> := [];
    var i := 0;
    while i < n.value
      invariant 0 <= i <= n.value && off == 4 + 4 * i <= |member| && |out| == i
      invariant forall k :: 0 <= k < i ==> out[k] == U32At(member, 4 + 4 * k)
      decreases |member| - off
    {
      var h := GetU32(member, off);
      if h.None? {
        return Err(ShortBuffer);
      }
      out := out + [h.value];
      off := off + 4;
      i := i + 1;
    }
    assert Handles(member).Ok? && out == Handles(member).value;
    r := Ok(out);
  }

  /** A field of a list's body, read behind the four octets of its count. */
  lemma FieldU32(head: Bytes, body: Bytes, off: nat, v: U32)
    requires |head| == 4 && off + 4 <= |body| && body[off..off + 4] == BE32(v)
    ensures U32At(head + body, 4 + off) == v
  {
    hide BE32, U32At;
    var at := 4 + off;
    assert (head + body)[at..at + 4] == body[off..off + 4];
    BE32Write(head + body, at);
    BE32Injective(U32At(head + body, at), v);
  }

  lemma FieldU16(head: Bytes, body: Bytes, off: nat, v: U16)
    requires |head| == 4 && off + 2 <= |body| && body[off..off + 2] == BE16(v)
    ensures U16At(head + body, 4 + off) == v
  {
    hide BE16, U16At;
    var at := 4 + off;
    assert (head + body)[at..at + 2] == body[off..off + 2];
    BE16Write(head + body, at);
    BE16Injective(U16At(head + body, at), v);
  }

  /** Two fields and what follows them, by offset. */
  lemma TwoFields(x: Bytes, y: Bytes, rest: Bytes, lo: nat, hi: nat)
    requires lo <= hi <= |rest|
    ensures (x + (y + rest))[0..|x|] == x && (x + (y + rest))[|x|..|x| + |y|] == y
    ensures var n := |x| + |y|;
            (x + (y + rest))[n + lo..n + hi] == rest[lo..hi]
  {
  }

  /** TPM-side encodings of the three lists, for the round trips. */
  function PutTagged(list: seq<TaggedProperty>, tail: Bytes): (b: Bytes)
    ensures |b| == 8 * |list| + |tail|
  {
    if list == [] then tail else BE32(list[0].property) + (BE32(list[0].value) + PutTagged(list[1..], tail))
  }

  lemma {:induction false} PutTaggedAt(list: seq<TaggedProperty>, tail: Bytes, i: nat, off: nat)
    requires i < |list| && off == 8 * i
    ensures PutTagged(list, tail)[off..off + 4] == BE32(list[i].property)
    ensures PutTagged(list, tail)[off + 4..off + 8] == BE32(list[i].value)
  {
    var x, y, rest := BE32(list[0].property), BE32(list[0].value), PutTagged(list[1..], tail);
    assert PutTagged(list, tail) == x + (y + rest);
    hide BE32, PutTagged;
    if i == 0 {
      TwoFields(x, y, rest, 0, 0);
    } else {
      PutTaggedAt(list[1..], tail, i - 1, off - 8);
      TwoFields(x, y, rest, off - 8, off - 4);
      TwoFields(x, y, rest, off - 4, off);
    }
  }

  lemma FromEntries(member: Bytes, list: seq<TaggedProperty>)
    requires |member| >= 4 + 8 * |list| && U32At(member, 0) == |list|
    requires forall k :: 0 <= k < |list| ==> list[k] == TaggedAt(member, 4 + 8 * k)
    ensures TaggedProperties(member) == Ok(list)
  {
    hide U32At, TaggedAt;
    assert TaggedProperties(member).Ok? && list == TaggedProperties(member).value;
  }

  /** The decoder returns the list a TPM encoded, whatever follows it. */
  lemma TaggedPropertiesPut(list: seq<TaggedProperty>, tail: Bytes)
    requires |list| < 0x1_0000_0000
    ensures TaggedProperties(BE32(|list|) + PutTagged(list, tail)) == Ok(list)
  {
    hide BE32, PutTagged, U32At, TaggedAt, TaggedProperties;
    var member := BE32(|list|) + PutTagged(list, tail);
    BE32Read(|list|, PutTagged(list, tail));
    forall k | 0 <= k < |list|
      ensures list[k] == TaggedAt(member, 4 + 8 * k)
    {
      TaggedBehindCount(list, tail, BE32(|list|), k, 8 * k);
    }
    FromEntries(member, list);
  }

  lemma TaggedBehindCount(list: seq<TaggedProperty>, tail: Bytes, count: Bytes, k: nat, off: nat)
    requires k < |list| && off == 8 * k && |count| == 4
    ensures TaggedAt(count + PutTagged(list, tail), 4 + off) == list[k]
  {
    hide BE32, PutTagged, U32At;
    PutTaggedAt(list, tail, k, off);
    FieldU32(count, PutTagged(list, tail), off, list[k].property);
    FieldU32(count, PutTagged(list, tail), off + 4, list[k].value);
  }

  function PutAlgs(list: seq<AlgProperty>, tail: Bytes): (b: Bytes)
    ensures |b| == 6 * |list| + |tail|
  {
    if list == [] then tail else BE16(list[0].alg) + (BE32(list[0].attributes) + PutAlgs(list[1..], tail))
  }

  lemma {:induction false} PutAlgsAt(list: seq<AlgProperty>, tail: Bytes, i: nat, off: nat)
    requires i < |list| && off == 6 * i
    ensures PutAlgs(list, tail)[off..off + 2] == BE16(list[i].alg)
    ensures PutAlgs(list, tail)[off + 2..off + 6] == BE32(list[i].attributes)
  {
    var x, y, rest := BE16(list[0].alg), BE32(list[0].attributes), PutAlgs(list[1..], tail);
    assert PutAlgs(list, tail) == x + (y + rest);
    hide BE16, BE32, PutAlgs;
    if i == 0 {
      TwoFields(x, y, rest, 0, 0);
    } else {
      PutAlgsAt(list[1..], tail, i - 1, off - 6);
      TwoFields(x, y, rest, off - 6, off - 4);
      TwoFields(x, y, rest, off - 4, off);
    }
  }

  lemma AlgPropertiesPut(list: seq<AlgProperty>, tail: Bytes)
    requires |list| < 0x1_0000_0000
    ensures AlgProperties(BE32(|list|) + PutAlgs(list, tail)) == Ok(list)
  {
    hide BE32, PutAlgs, U32At, AlgAt, AlgProperties;
    var member := BE32(|list|) + PutAlgs(list, tail);
    BE32Read(|list|, PutAlgs(list, tail));
    forall k | 0 <= k < |list|
      ensures list[k] == AlgAt(member, 4 + 6 * k)
    {
      AlgBehindCount(list, tail, BE32(|list|), k, 6 * k);
    }
    FromAlgEntries(member, list);
  }

  lemma AlgBehindCount(list: seq<AlgProperty>, tail: Bytes, count: Bytes, k: nat, off: nat)
    requires k < |list| && off == 6 * k && |count| == 4
    ensures AlgAt(count + PutAlgs(list, tail), 4 + off) == list[k]
  {
    hide BE16, BE32, PutAlgs, U16At, U32At;
    PutAlgsAt(list, tail, k, off);
    FieldU16(count, PutAlgs(list, tail), off, list[k].alg);
    FieldU32(count, PutAlgs(list, tail), off + 2, list[k].attributes);
  }

  lemma FromAlgEntries(member: Bytes, list: seq<AlgProperty>)
    requires |member| >= 4 + 6 * |list| && U32At(member, 0) == |list|
    requires forall k :: 0 <= k < |list| ==> list[k] == AlgAt(member, 4 + 6 * k)
    ensures AlgProperties(member) == Ok(list)
  {
    hide U32At, AlgAt;
    assert AlgProperties(member).Ok? && list == AlgProperties(member).value;
  }

  function PutHandles(list: seq<U32>, tail: Bytes): (b: Bytes)
    ensures |b| == 4 * |list| + |tail|
  {
    if list == [] then tail else BE32(list[0]) + PutHandles(list[1..], tail)
  }

  lemma {:induction false} PutHandlesAt(list: seq<U32>, tail: Bytes, i: nat, off: nat)
    requires i < |list| && off == 4 * i
    ensures PutHandles(list, tail)[off..off + 4] == BE32(list[i])
  {
    var b, rest := PutHandles(list, tail), PutHandles(list[1..], tail);
    hide BE32;
    if i == 0 {
      assert b[0..4] == BE32(list[0]);
    } else {
      PutHandlesAt(list[1..], tail, i - 1, off - 4);
      assert b[off..off + 4] == rest[off - 4..off];
    }
  }

  lemma HandlesPut(list: seq<U32>, tail: Bytes)
    requires |list| < 0x1_0000_0000
    ensures Handles(BE32(|list|) + PutHandles(list, tail)) == Ok(list)
  {
    hide BE32, PutHandles, U32At, Handles;
    var member := BE32(|list|) + PutHandles(list, tail);
    BE32Read(|list|, PutHandles(list, tail));
    forall k | 0 <= k < |list|
      ensures list[k] == U32At(member, 4 + 4 * k)
    {
      PutHandlesAt(list, tail, k, 4 * k);
      FieldU32(BE32(|list|), PutHandles(list, tail), 4 * k, list[k]);
    }
    FromHandleEntries(member, list);
  }

  lemma FromHandleEntries(member: Bytes, list: seq<U32>)
    requires |member| >= 4 + 4 * |list| && U32At(member, 0) == |list|
    requires forall k :: 0 <= k < |list| ==> list[k] == U32At(member, 4 + 4 * k)
    ensures Handles(member) == Ok(list)
  {
    hide U32At;
    assert Handles(member).Ok? && list == Handles(member).value;
  }

  // ---------------------------------------------------------------------
  // TPML_DIGEST
  // ---------------------------------------------------------------------

  function TakeDigests(n: nat, b: Bytes): Result<seq<Bytes>> {
    if n == 0 then Ok([])
    else
      var (d, rest) :- UnmarshalTPM2B(b);
      var more :- TakeDigests(n - 1, rest);
      Ok([d] + more)
  }

  function Prefixed(front: seq<Bytes>, r: Result<seq<Bytes>>): Result<seq<Bytes>> {
    match r
    case Ok(more) => Ok(front + more)
    case Err(e) => Err(e)
  }

  lemma TakeDigestsStep(front: seq<Bytes>, n: nat, b: Bytes)
    requires n > 0
    ensures UnmarshalTPM2B(b).Err? ==> Prefixed(front, TakeDigests(n, b)) == Err(UnmarshalTPM2B(b).error)
    ensures UnmarshalTPM2B(b).Ok? ==>
              Prefixed(front, TakeDigests(n, b))
              == Prefixed(front + [UnmarshalTPM2B(b).value.0], TakeDigests(n - 1, UnmarshalTPM2B(b).value.1))
  {
    hide UnmarshalTPM2B;
    if UnmarshalTPM2B(b).Ok? {
      var (d, rest) := UnmarshalTPM2B(b).value;
      var next := TakeDigests(n - 1, rest);
      if next.Ok? {
        Reassociate(front, [d], next.value);
      }
    }
  }

  function ParseDigestList(b: Bytes): Result<seq<Bytes>> {
    var (n, rest) :- TakeU32(b);
    TakeDigests(n, rest)
  }

  method ParseDigests(b: Bytes) returns (r: Result<seq<Bytes>>)
    ensures r == ParseDigestList(b)
  {
    assert b[0..] == b;
    TakeU32At(b, 0);
    hide TakeU32, U32At, UnmarshalTPM2B;
    var count := GetU32(b, 0);
    if count.None? {
      return Err(ShortBuffer);
    }
    var rest := b[4..];
    var digests: seq<Bytes> := [];
    var i := 0;
    assert Prefixed([], ParseDigestList(b)) == ParseDigestList(b) by {
      if ParseDigestList(b).Ok? {
        assert [] + ParseDigestList(b).value == ParseDigestList(b).value;
      }
    }
    while i < count.value
      invariant 0 <= i <= count.value
      invariant ParseDigestList(b) == Prefixed(digests, TakeDigests(count.value - i, rest))
      decreases |rest|
    {
      TakeDigestsStep(digests, count.value - i, rest);
      var val := UnmarshalTPM2B(rest);
      if val.Err? {
        return Err(val.error);
      }
      digests := digests + [val.value.0];
      rest := val.value.1;
      i := i + 1;
    }
    assert digests + [] == digests;
    r := Ok(digests);
  }

  predicate AllFit(ds: seq<Bytes>) {
    forall d :: d in ds ==> Fits(d)
  }

  function PutDigests(ds: seq<Bytes>, tail: Bytes): Bytes
    requires AllFit(ds)
  {
    if ds == [] then tail else TPM2B(ds[0]) + PutDigests(ds[1..], tail)
  }

  lemma {:induction false} TakeDigestsPut(ds: seq<Bytes>, tail: Bytes)
    requires AllFit(ds)
    ensures TakeDigests(|ds|, PutDigests(ds, tail)) == Ok(ds)
  {
    if ds == [] {
      assert TakeDigests(0, tail) == Ok([]);
    } else {
      hide TPM2B, UnmarshalTPM2B;
      UnmarshalMarshal(ds[0], PutDigests(ds[1..], tail));
      TakeDigestsPut(ds[1..], tail);
      assert [ds[0]] + ds[1..] == ds;
    }
  }

  /** In order: one more digest stands behind those before it. */
  lemma {:induction false} PutDigestsAppend(ds: seq<Bytes>, d: Bytes, tail: Bytes)
    requires AllFit(ds) && Fits(d)
    ensures AllFit(ds + [d]) && PutDigests(ds + [d], tail) == PutDigests(ds, TPM2B(d) + tail)
  {
    hide TPM2B;
    if ds == [] {
      assert ds + [d] == [d] && [d][1..] == [];
      assert PutDigests([d], tail) == TPM2B(d) + PutDigests([], tail);
    } else {
      assert (ds + [d])[1..] == ds[1..] + [d];
      PutDigestsAppend(ds[1..], d, tail);
    }
  }

  /** A successful parse of n digests has consumed at least 4 + 2n octets. */
  lemma {:induction false} TakeDigestsConsumes(n: nat, b: Bytes)
    requires TakeDigests(n, b).Ok?
    ensures |TakeDigests(n, b).value| == n && |b| >= 2 * n
  {
    if n > 0 {
      TakeDigestsConsumes(n - 1, UnmarshalTPM2B(b).value.1);
    }
  }

  /** The PCR_Read reply: counter, echoed selection (skipped), digests. */
  function ParsePCRReadResponse(rp: Bytes): Result<(U32, seq<Bytes>)> {
    var (counter, b1) :- TakeU32(rp);
    var (_, b2) :- ParseList(b1);
    var digests :- ParseDigestList(b2);
    Ok((counter, digests))
  }

  /** What a TPM answers to PCR_Read is read back as its counter and digests. */
  lemma ParsePCRReadPut(counter: U32, sel: seq<PCRSelection>, ds: seq<Bytes>)
    requires |sel| < 0x1_0000_0000 && |ds| < 0x1_0000_0000 && AllFit(ds)
    ensures ParsePCRReadResponse(BE32(counter) + (MarshalList(sel) + (BE32(|ds|) + PutDigests(ds, [])))) == Ok((counter, ds))
  {
    var b2 := BE32(|ds|) + PutDigests(ds, []);
    TakeU32Put(counter, MarshalList(sel) + b2);
    ParseMarshalledWhole(sel, b2);
    TakeU32Put(|ds|, PutDigests(ds, []));
    TakeDigestsPut(ds, []);
    hide BE32, TakeU32, MarshalList, ParseList, PutDigests, TakeDigests;
  }
}
