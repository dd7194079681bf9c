/**
  The command methods (seal.go, import.go, activate.go, attest.go, commands.go,
  capability.go, nv.go) over any transport. Each method builds its body step by
  step, executes it and parses the reply; its contract equates its result and the
  transport's next state with a function of the arguments and the old state.
 */
module Client {
  import opened Wire
  import opened Bits
  import opened Crypto
  import opened Pcr
  import opened PublicArea
  import opened Policy
  import opened OuterWrap
  import opened Credential
  import opened Attest
  import opened Capability
  import opened Nv
  import opened Transport
  import opened Commands

  const CC_NV_READ_PUBLIC: U32 := 0x169

  // ---------------------------------------------------------------------
  // Replies
  // ---------------------------------------------------------------------

  /** parameterSize, then one TPM2B. */
  function ParseSized(rp: Bytes): Result<Bytes> {
    var (_, b1) :- TakeU32(rp);
    var (v, _) :- UnmarshalTPM2B(b1);
    Ok(v)
  }

  function SizedResult(r: Result<Bytes>): Result<Bytes> {
    var rp :- r;
    ParseSized(rp)
  }

  function CreateResult(r: Result<Bytes>): Result<(Bytes, Bytes)> {
    var rp :- r;
    var (_, b1) :- TakeU32(rp);
    var (priv, b2) :- UnmarshalTPM2B(b1);
    var (pub, _) :- UnmarshalTPM2B(b2);
    Ok((priv, pub))
  }

  function LoadResult(r: Result<Bytes>): Result<U32> {
    var rp :- r;
    var (handle, _) :- TakeU32(rp);
    Ok(handle)
  }

  function StartResult(r: Result<Bytes>): Result<(U32, Bytes)> {
    var rp :- r;
    var (handle, b1) :- TakeU32(rp);
    var (nonceTPM, _) :- UnmarshalTPM2B(b1);
    Ok((handle, nonceTPM))
  }

  function NoResult(r: Result<Bytes>): Result<()> {
    var _ :- r;
    Ok(())
  }

  function QuoteResult(r: Result<Bytes>): Result<(Bytes, Signature)> {
    var rp :- r;
    ParseQuoteResponse(rp)
  }

  /** The reply the reference TPM's one-buffer commands give, read back. */
  lemma SizedResultPut(size: U32, v: Bytes, tail: Bytes)
    requires Fits(v)
    ensures SizedResult(Ok(BE32(size) + (TPM2B(v) + tail))) == Ok(v)
  {
    TakeU32Put(size, TPM2B(v) + tail);
    UnmarshalMarshal(v, tail);
    hide BE32, TakeU32, TPM2B, UnmarshalTPM2B;
  }

  lemma LoadResultPut(handle: U32, tail: Bytes)
    ensures LoadResult(Ok(BE32(handle) + tail)) == Ok(handle)
  {
    TakeU32Put(handle, tail);
    hide BE32, TakeU32;
  }

  lemma StartResultPut(handle: U32, nonceTPM: Bytes)
    requires Fits(nonceTPM)
    ensures StartResult(Ok(BE32(handle) + (TPM2B(nonceTPM) + []))) == Ok((handle, nonceTPM))
  {
    TakeU32Put(handle, TPM2B(nonceTPM) + []);
    UnmarshalMarshal(nonceTPM, []);
    hide BE32, TakeU32, TPM2B, UnmarshalTPM2B;
  }

  lemma CreateResultPut(size: U32, priv: Bytes, pub: Bytes, tail: Bytes)
    requires Fits(priv) && Fits(pub)
    ensures CreateResult(Ok(BE32(size) + (TPM2B(priv) + (TPM2B(pub) + tail)))) == Ok((priv, pub))
  {
    TakeU32Put(size, TPM2B(priv) + (TPM2B(pub) + tail));
    UnmarshalMarshal(priv, TPM2B(pub) + tail);
    UnmarshalMarshal(pub, tail);
    hide BE32, TakeU32, TPM2B, UnmarshalTPM2B;
  }

  // ---------------------------------------------------------------------
  // Commands as functions of the transport
  // ---------------------------------------------------------------------

  function CreateSpec<S>(step: Step<S>, s: S, parent: U32, secret: Bytes, policyDigest: Bytes): (S, Result<(Bytes, Bytes)>)
    requires |secret| + 4 <= 0xFFFF && |policyDigest| <= 0xFF00
  {
    var (s1, r) := Issue(step, s, TAG_SESSIONS, CC_CREATE, CreateBody(parent, secret, PutSealed(SealArea(policyDigest), [])));
    (s1, CreateResult(r))
  }

  function LoadSpec<S>(step: Step<S>, s: S, parent: U32, priv: Bytes, pub: Bytes): (S, Result<U32>)
    requires Fits(priv) && Fits(pub)
  {
    var (s1, r) := Issue(step, s, TAG_SESSIONS, CC_LOAD, LoadBody(parent, priv, pub));
    (s1, LoadResult(r))
  }

  function ImportSpec<S>(step: Step<S>, s: S, parent: U32, objectPublic: Bytes, duplicate: Bytes, inSymSeed: Bytes): (x: (S, Result<Bytes>))
    requires Fits(objectPublic)
    ensures x.1.Ok? ==> Fits(x.1.value)
  {
    var (s1, r) := Issue(step, s, TAG_SESSIONS, CC_IMPORT, ImportBody(parent, objectPublic, duplicate, inSymSeed));
    (s1, SizedResult(r))
  }

  function StartAuthSessionSpec<S>(step: Step<S>, s: S, nonceCaller: Bytes): (S, Result<(U32, Bytes)>)
    requires Fits(nonceCaller)
  {
    var (s1, r) := Issue(step, s, TAG_NO_SESSIONS, CC_START_AUTH_SESSION, StartAuthSessionBody(nonceCaller));
    (s1, StartResult(r))
  }

  function PolicyPCRSpec<S>(step: Step<S>, s: S, session: U32, sel: seq<PCRSelection>): (S, Result<()>) {
    var (s1, r) := Issue(step, s, TAG_NO_SESSIONS, CC_POLICY_PCR, PolicyPCRBody(session, sel));
    (s1, NoResult(r))
  }

  function PolicySecretSpec<S>(step: Step<S>, s: S, authHandle: U32, session: U32): (S, Result<()>) {
    var (s1, r) := Issue(step, s, TAG_SESSIONS, CC_POLICY_SECRET, PolicySecretBody(authHandle, session));
    (s1, NoResult(r))
  }

  function UnsealSpec<S>(step: Step<S>, s: S, item: U32, session: U32): (S, Result<Bytes>) {
    var (s1, r) := Issue(step, s, TAG_SESSIONS, CC_UNSEAL, UnsealBody(item, session));
    (s1, SizedResult(r))
  }

  function ActivateCredentialSpec<S>(step: Step<S>, s: S, activate: U32, key: U32, session: U32, blob: Bytes, secret: Bytes): (S, Result<Bytes>) {
    var (s1, r) := Issue(step, s, TAG_SESSIONS, CC_ACTIVATE_CREDENTIAL, ActivateCredentialBody(activate, key, session, blob, secret));
    (s1, SizedResult(r))
  }

  function QuoteSpec<S>(step: Step<S>, s: S, key: U32, qualifyingData: Bytes, sel: seq<PCRSelection>): (S, Result<(Bytes, Signature)>)
    requires Fits(qualifyingData)
  {
    var (s1, r) := Issue(step, s, TAG_SESSIONS, CC_QUOTE, QuoteBody(key, qualifyingData, sel));
    (s1, QuoteResult(r))
  }

  /** Open a policy session and satisfy PolicyPCR in it, then unseal. */
  function PolicyUnsealSpec<S>(step: Step<S>, s: S, item: U32, sel: seq<PCRSelection>, nonceCaller: Bytes): (S, Result<Bytes>)
    requires Fits(nonceCaller)
  {
    var (s1, session) := StartAuthSessionSpec(step, s, nonceCaller);
    if session.Err? then (s1, Err(session.error))
    else
      var (s2, policy) := PolicyPCRSpec(step, s1, session.value.0, sel);
      if policy.Err? then (s2, Err(policy.error))
      else UnsealSpec(step, s2, item, session.value.0)
  }

  function UnsealWithPCRSpec<S>(step: Step<S>, s: S, parent: U32, priv: Bytes, pub: Bytes, sel: seq<PCRSelection>, nonceCaller: Bytes): (S, Result<Bytes>)
    requires Fits(priv) && Fits(pub) && Fits(nonceCaller)
  {
    var (s1, item) := LoadSpec(step, s, parent, priv, pub);
    if item.Err? then (s1, Err(item.error))
    else PolicyUnsealSpec(step, s1, item.value, sel, nonceCaller)
  }

  function ImportAndUnsealSpec<S>(step: Step<S>, s: S, parent: U32, objectPublic: Bytes, duplicate: Bytes, inSymSeed: Bytes,
                                  sel: seq<PCRSelection>, nonceCaller: Bytes): (S, Result<Bytes>)
    requires Fits(objectPublic) && Fits(nonceCaller)
  {
    var (s1, outPrivate) := ImportSpec(step, s, parent, objectPublic, duplicate, inSymSeed);
    if outPrivate.Err? then (s1, outPrivate)
    else UnsealWithPCRSpec(step, s1, parent, outPrivate.value, objectPublic, sel, nonceCaller)
  }

  /** StartAuthSession, PolicySecret over the endorsement hierarchy, ActivateCredential, in that order. */
  function ActivateFlowSpec<S>(step: Step<S>, s: S, ak: U32, ek: U32, mc: Blobs, nonceCaller: Bytes): (S, Result<Bytes>)
    requires Fits(nonceCaller)
  {
    var (s1, session) := StartAuthSessionSpec(step, s, nonceCaller);
    if session.Err? then (s1, Err(session.error))
    else
      var (s2, policy) := PolicySecretSpec(step, s1, RH_ENDORSEMENT, session.value.0);
      if policy.Err? then (s2, Err(policy.error))
      else ActivateCredentialSpec(step, s2, ak, ek, session.value.0, mc.wrapped, mc.secret)
  }

  /** The off-TPM part of ActivateAKWithEK: the AK's Name, the EK's point, the credential blobs. */
  function MadeCredential(c: Suite, akPublic: Bytes, ekPublic: Bytes, credential: Bytes, ephemeral: Option<nat>): Result<Blobs>
    requires Wrappable(credential)
  {
    var akName :- ObjectName(c, akPublic);
    var ekPoint :- PointIn(ekPublic);
    MakeCredentialSpec(c, ekPoint, akName, credential, ephemeral)
  }

  function ActivateAKWithEKSpec<S>(step: Step<S>, s: S, c: Suite, ak: U32, ek: U32, akPublic: Bytes, ekPublic: Bytes,
                                   credential: Bytes, nonceCaller: Bytes, ephemeral: Option<nat>): (S, Result<Bytes>)
    requires Wrappable(credential) && Fits(nonceCaller)
  {
    match MadeCredential(c, akPublic, ekPublic, credential, ephemeral)
    case Err(e) => (s, Err(e))
    case Ok(mc) => ActivateFlowSpec(step, s, ak, ek, mc, nonceCaller)
  }

  function CapabilityBody(capSel: U32, prop: U32, count: U32): Bytes {
    BE32(capSel) + (BE32(prop) + BE32(count))
  }

  function DecodeCapability(b: Bytes): Result<(U32, U32, U32)> {
    var (capSel, b1) :- TakeU32(b);
    var (prop, b2) :- TakeU32(b1);
    var (count, b3) :- TakeU32(b2);
    Done((capSel, prop, count), b3)
  }

  lemma DecodeCapabilityBody(capSel: U32, prop: U32, count: U32)
    ensures DecodeCapability(CapabilityBody(capSel, prop, count)) == Ok((capSel, prop, count))
  {
    TakeU32Put(capSel, BE32(prop) + BE32(count));
    TakeU32Put(prop, BE32(count));
    TakeU32Put(count, []);
    assert BE32(count) + [] == BE32(count);
    hide BE32, TakeU32;
  }

  function CapabilitySpec<S>(step: Step<S>, s: S, capSel: U32, prop: U32, count: U32): (S, Result<Bytes>) {
    var (s1, r) := Issue(step, s, TAG_NO_SESSIONS, CC_GET_CAPABILITY, CapabilityBody(capSel, prop, count));
    (s1, match r case Ok(rp) => CapabilityMember(rp, capSel) case Err(e) => Err(e))
  }

  /** TPM2B_NV_PUBLIC, then TPM2B_NAME. */
  function NVReadPublicResult(r: Result<Bytes>): Result<(NVPublic, Bytes)> {
    var rp :- r;
    var (pubBytes, rest) :- UnmarshalTPM2B(rp);
    var (pub, _) :- ParseNVPublic(pubBytes);
    var (name, _) :- UnmarshalTPM2B(rest);
    Ok((pub, name))
  }

  /** A TPM's NV_ReadPublic answer is read back to the public area and the Name. */
  lemma NVReadPublicPut(p: NVPublic, name: Bytes, tail: Bytes)
    requires Marshallable(p) && Fits(name)
    ensures NVReadPublicResult(Ok(MarshalNVPublic(p) + (TPM2B(name) + tail))) == Ok((p, name))
  {
    NVPublicRoundTrip(p, TPM2B(name) + tail);
    UnmarshalMarshal(name, tail);
    hide MarshalNVPublic, PutNVPublic, ParseNVPublic, TPM2B, UnmarshalTPM2B;
  }

  // ---------------------------------------------------------------------
  // The TPM handle
  // ---------------------------------------------------------------------

  class TPM<!S> {
    const t: Transport<S>

    constructor (t: Transport<S>)
      ensures this.t == t
    {
      this.t := t;
    }

    method Execute(tag: U16, cc: U32, params: Bytes) returns (r: Result<Bytes>)
      modifies t
      ensures (t.state, r) == Issue(t.step, old(t.state), tag, cc, params)
      ensures var cmd := Frame(tag, cc, params);
              var n := Attempts(t.step, old(t.state), cmd, 0);
              t.sent == old(t.sent) + Copies(cmd, n) && t.slept == old(t.slept) + Backoff(n - 1)
    {
      hide ParseFrame, Frame, Pow2;
      var cmd := Frame(tag, cc, params);
      ghost var s := t.state;
      var attempt := 0;
      BackoffNext(0);
      while true
        invariant 0 <= attempt <= RETRY_LIMIT
        invariant t.state == After(t.step, s, cmd, attempt)
        invariant t.sent == old(t.sent) + Copies(cmd, attempt)
        invariant t.slept == old(t.slept) + Backoff(attempt)
        invariant Attempts(t.step, s, cmd, 0) == Attempts(t.step, s, cmd, attempt)
        decreases RETRY_LIMIT - attempt
      {
        var reply := t.Send(cmd);
        assert reply == ReplyAt(t.step, s, cmd, attempt);
        assert Copies(cmd, attempt) + [cmd] == Copies(cmd, attempt + 1);
        if reply.Err? {
          return reply;
        }
        var parsed := ParseFrame(reply.value);
        if parsed.Err? {
          return Err(parsed.error);
        }
        var (_, rc, rp) := parsed.value;
        if rc == RC_SUCCESS {
          return Ok(rp);
        }
        if rc != RC_RETRY || attempt >= RETRY_LIMIT {
          return Err(TpmError(cc, rc));
        }
        t.Sleep(RETRY_BACKOFF_MS * Pow2(attempt));
        BackoffNext(attempt);
        attempt := attempt + 1;
      }
    }

    method Create(parent: U32, secret: Bytes, policyDigest: Bytes) returns (r: Result<(Bytes, Bytes)>)
      requires |secret| + 4 <= 0xFFFF && |policyDigest| <= 0xFF00
      modifies t
      ensures (t.state, r) == CreateSpec(t.step, old(t.state), parent, secret, policyDigest)
    {
      hide Issue, BE16, BE32, TPM2B, UnmarshalTPM2B, PutSealed, PutAuth;
      var body := BE32(parent);
      var auth := MarshalPasswordAuth();
      body := body + BE32(Size(auth));
      body := body + auth;
      body := body + MarshalSealSensitiveCreate(secret);
      body := body + MarshalSealPublic(policyDigest);
      body := body + BE16(0);
      body := body + BE32(0);
      assert body == CreateBody(parent, secret, PutSealed(SealArea(policyDigest), []));
      var rsp := Execute(TAG_SESSIONS, CC_CREATE, body);
      if rsp.Err? {
        return Err(rsp.error);
      }
      var rp := rsp.value;
      if GetU32(rp, 0).None? {
        return Err(ShortBuffer);
      }
      var priv := UnmarshalTPM2B(rp[4..]);
      if priv.Err? {
        return Err(priv.error);
      }
      var pub := UnmarshalTPM2B(priv.value.1);
      if pub.Err? {
        return Err(pub.error);
      }
      r := Ok((priv.value.0, pub.value.0));
    }

    method Load(parent: U32, priv: Bytes, pub: Bytes) returns (r: Result<U32>)
      requires Fits(priv) && Fits(pub)
      modifies t
      ensures (t.state, r) == LoadSpec(t.step, old(t.state), parent, priv, pub)
    {
      hide Issue, BE32, TPM2B, PutAuth, U32At;
      var body := BE32(parent);
      var auth := MarshalPasswordAuth();
      body := body + BE32(Size(auth));
      body := body + auth;
      body := body + TPM2B(priv);
      body := body + TPM2B(pub);
      assert body == LoadBody(parent, priv, pub);
      var rsp := Execute(TAG_SESSIONS, CC_LOAD, body);
      if rsp.Err? {
        return Err(rsp.error);
      }
      var h := GetU32(rsp.value, 0);
      if h.None? {
        return Err(ShortBuffer);
      }
      r := Ok(h.value);
    }

    method Import(parent: U32, objectPublic: Bytes, duplicate: Bytes, inSymSeed: Bytes) returns (r: Result<Bytes>)
      requires Fits(objectPublic)
      modifies t
      ensures (t.state, r) == ImportSpec(t.step, old(t.state), parent, objectPublic, duplicate, inSymSeed)
    {
      hide Issue, BE16, BE32, TPM2B, UnmarshalTPM2B, PutAuth;
      var body := BE32(parent);
      var auth := MarshalPasswordAuth();
      body := body + BE32(Size(auth));
      body := body + auth;
      body := body + BE16(0);
      body := body + TPM2B(objectPublic);
      body := body + duplicate;
      body := body + inSymSeed;
      body := body + BE16(ALG_NULL);
      assert body == ImportBody(parent, objectPublic, duplicate, inSymSeed);
      var rsp := Execute(TAG_SESSIONS, CC_IMPORT, body);
      if rsp.Err? {
        return Err(rsp.error);
      }
      r := ParseSizedReply(rsp.value);
    }

    /** parameterSize is checked for and skipped; the TPM2B behind it is returned. */
    method ParseSizedReply(rp: Bytes) returns (r: Result<Bytes>)
      ensures r == ParseSized(rp)
    {
      hide UnmarshalTPM2B, U32At;
      if GetU32(rp, 0).None? {
        return Err(ShortBuffer);
      }
      var v := UnmarshalTPM2B(rp[4..]);
      if v.Err? {
        return Err(v.error);
      }
      r := Ok(v.value.0);
    }

    method StartAuthSession(nonceCaller: Bytes) returns (r: Result<(U32, Bytes)>)
      requires Fits(nonceCaller)
      modifies t
      ensures (t.state, r) == StartAuthSessionSpec(t.step, old(t.state), nonceCaller)
    {
      hide Issue, BE16, BE32, TPM2B, UnmarshalTPM2B, U32At;
      var body := BE32(RH_NULL);
      body := body + BE32(RH_NULL);
      body := body + TPM2B(nonceCaller);
      body := body + BE16(0);
      body := body + [SE_POLICY];
      body := body + BE16(ALG_NULL);
      body := body + BE16(ALG_SHA256);
      assert body == StartAuthSessionBody(nonceCaller);
      var rsp := Execute(TAG_NO_SESSIONS, CC_START_AUTH_SESSION, body);
      if rsp.Err? {
        return Err(rsp.error);
      }
      var h := GetU32(rsp.value, 0);
      if h.None? {
        return Err(ShortBuffer);
      }
      var nt := UnmarshalTPM2B(rsp.value[4..]);
      if nt.Err? {
        return Err(nt.error);
      }
      r := Ok((h.value, nt.value.0));
    }

    method PolicyPCR(session: U32, sel: seq<PCRSelection>) returns (r: Result<()>)
      modifies t
      ensures (t.state, r) == PolicyPCRSpec(t.step, old(t.state), session, sel)
    {
      hide Issue, BE16, BE32, MarshalList;
      var body := BE32(session);
      body := body + BE16(0);
      var list := MarshalPCRSelectionList(sel);
      body := body + list;
      assert body == PolicyPCRBody(session, sel);
      var rsp := Execute(TAG_NO_SESSIONS, CC_POLICY_PCR, body);
      r := NoResult(rsp);
    }

    method PolicySecret(authHandle: U32, session: U32) returns (r: Result<()>)
      modifies t
      ensures (t.state, r) == PolicySecretSpec(t.step, old(t.state), authHandle, session)
    {
      hide Issue, BE16, BE32, PutAuth;
      var body := BE32(authHandle);
      body := body + BE32(session);
      var auth := MarshalPasswordAuth();
      body := body + BE32(Size(auth));
      body := body + auth;
      body := body + BE16(0);
      body := body + BE16(0);
      body := body + BE16(0);
      body := body + BE32(0);
      assert body == PolicySecretBody(authHandle, session);
      var rsp := Execute(TAG_SESSIONS, CC_POLICY_SECRET, body);
      r := NoResult(rsp);
    }

    method Unseal(item: U32, session: U32) returns (r: Result<Bytes>)
      modifies t
      ensures (t.state, r) == UnsealSpec(t.step, old(t.state), item, session)
    {
      hide Issue, BE32, PutAuth;
      var body := BE32(item);
      var auth := MarshalPolicyAuth(session);
      body := body + BE32(Size(auth));
      body := body + auth;
      assert body == UnsealBody(item, session);
      var rsp := Execute(TAG_SESSIONS, CC_UNSEAL, body);
      if rsp.Err? {
        return Err(rsp.error);
      }
      r := ParseSizedReply(rsp.value);
    }

    method ActivateCredential(activate: U32, key: U32, session: U32, credentialBlob: Bytes, secret: Bytes) returns (r: Result<Bytes>)
      modifies t
      ensures (t.state, r) == ActivateCredentialSpec(t.step, old(t.state), activate, key, session, credentialBlob, secret)
    {
      hide Issue, BE32, PutAuth, AuthArea;
      var body := BE32(activate);
      body := body + BE32(key);
      var akAuth := MarshalPasswordAuth();
      var ekAuth := MarshalPolicyAuth(session);
      var area := MarshalAuthArea([akAuth, ekAuth]);
      body := body + area;
      body := body + credentialBlob;
      body := body + secret;
      assert body == ActivateCredentialBody(activate, key, session, credentialBlob, secret);
      var rsp := Execute(TAG_SESSIONS, CC_ACTIVATE_CREDENTIAL, body);
      if rsp.Err? {
        return Err(rsp.error);
      }
      r := ParseSizedReply(rsp.value);
    }

    method Quote(key: U32, qualifyingData: Bytes, sel: seq<PCRSelection>) returns (r: Result<(Bytes, Signature)>)
      requires Fits(qualifyingData)
      modifies t
      ensures (t.state, r) == QuoteSpec(t.step, old(t.state), key, qualifyingData, sel)
    {
      hide Issue, BE16, BE32, TPM2B, PutAuth, MarshalList, ParseQuoteResponse;
      var body := BE32(key);
      var auth := MarshalPasswordAuth();
      body := body + BE32(Size(auth));
      body := body + auth;
      body := body + TPM2B(qualifyingData);
      body := body + BE16(ALG_NULL);
      var list := MarshalPCRSelectionList(sel);
      body := body + list;
      assert body == QuoteBody(key, qualifyingData, sel);
      var rsp := Execute(TAG_SESSIONS, CC_QUOTE, body);
      r := QuoteResult(rsp);
    }

    method PCRExtend(pcr: U32, hash: U16, digest: Bytes) returns (r: Result<()>)
      modifies t
      ensures var (s, x) := Issue(t.step, old(t.state), TAG_SESSIONS, CC_PCR_EXTEND, PCRExtendBody(pcr, hash, digest));
              t.state == s && r == NoResult(x)
    {
      hide Issue, BE16, BE32, PutAuth;
      var body := BE32(pcr);
      var auth := MarshalPasswordAuth();
      body := body + BE32(Size(auth));
      body := body + auth;
      body := body + BE32(1);
      body := body + BE16(hash);
      body := body + digest;
      assert body == PCRExtendBody(pcr, hash, digest);
      var rsp := Execute(TAG_SESSIONS, CC_PCR_EXTEND, body);
      r := NoResult(rsp);
    }

    method PCRRead(sel: seq<PCRSelection>) returns (r: Result<(U32, seq<Bytes>)>)
      modifies t
      ensures var (s, x) := Issue(t.step, old(t.state), TAG_NO_SESSIONS, CC_PCR_READ, MarshalList(sel));
              t.state == s && r == match x case Ok(rp) => ParsePCRReadResponse(rp) case Err(e) => Err(e)
    {
      hide Issue, MarshalList, ParseList, ParseDigestList, U32At;
      var params := MarshalPCRSelectionList(sel);
      var rsp := Execute(TAG_NO_SESSIONS, CC_PCR_READ, params);
      if rsp.Err? {
        return Err(rsp.error);
      }
      var counter := GetU32(rsp.value, 0);
      if counter.None? {
        return Err(ShortBuffer);
      }
      var echoed := ParsePCRSelectionList(rsp.value[4..]);
      if echoed.Err? {
        return Err(echoed.error);
      }
      var digests := ParseDigests(echoed.value.1);
      if digests.Err? {
        return Err(digests.error);
      }
      r := Ok((counter.value, digests.value));
    }

    method GetCapabilityData(capSel: U32, prop: U32, count: U32) returns (r: Result<Bytes>)
      modifies t
      ensures (t.state, r) == CapabilitySpec(t.step, old(t.state), capSel, prop, count)
    {
      hide Issue, BE32, U32At;
      var params := BE32(capSel);
      params := params + BE32(prop);
      params := params + BE32(count);
      assert params == CapabilityBody(capSel, prop, count);
      var rsp := Execute(TAG_NO_SESSIONS, CC_GET_CAPABILITY, params);
      if rsp.Err? {
        return Err(rsp.error);
      }
      if GetU8(rsp.value, 0).None? {
        return Err(ShortBuffer);
      }
      var data := rsp.value[1..];
      var echoed := GetU32(data, 0);
      if echoed.None? {
        return Err(ShortBuffer);
      }
      if echoed.value != capSel {
        return Err(UnexpectedCapability);
      }
      r := Ok(data[4..]);
    }

    method GetTPMProperties(firstProp: U32, count: U32) returns (r: Result<seq<TaggedProperty>>)
      modifies t
      ensures var (s, x) := CapabilitySpec(t.step, old(t.state), 6, firstProp, count);
              t.state == s && r == match x case Ok(member) => TaggedProperties(member) case Err(e) => Err(e)
    {
      hide CapabilitySpec, TaggedProperties;
      var member := GetCapabilityData(CAP_TPM_PROPERTIES, firstProp, count);
      if member.Err? {
        return Err(member.error);
      }
      r := ParseTaggedProperties(member.value);
    }

    method GetAlgorithms(firstAlg: U32, count: U32) returns (r: Result<seq<AlgProperty>>)
      modifies t
      ensures var (s, x) := CapabilitySpec(t.step, old(t.state), 0, firstAlg, count);
              t.state == s && r == match x case Ok(member) => AlgProperties(member) case Err(e) => Err(e)
    {
      hide CapabilitySpec, AlgProperties;
      var member := GetCapabilityData(CAP_ALGS, firstAlg, count);
      if member.Err? {
        return Err(member.error);
      }
      r := ParseAlgProperties(member.value);
    }

    method GetHandles(firstHandle: U32, count: U32) returns (r: Result<seq<U32>>)
      modifies t
      ensures var (s, x) := CapabilitySpec(t.step, old(t.state), 1, firstHandle, count);
              t.state == s && r == match x case Ok(member) => Handles(member) case Err(e) => Err(e)
    {
      hide CapabilitySpec, Handles;
      var member := GetCapabilityData(CAP_HANDLES, firstHandle, count);
      if member.Err? {
        return Err(member.error);
      }
      r := ParseHandles(member.value);
    }

    method NVReadPublic(nvIndex: U32) returns (r: Result<(NVPublic, Bytes)>)
      modifies t
      ensures var (s, x) := Issue(t.step, old(t.state), TAG_NO_SESSIONS, CC_NV_READ_PUBLIC, BE32(nvIndex));
              t.state == s && r == NVReadPublicResult(x)
    {
      hide Issue, BE32, UnmarshalTPM2B, ParseNVPublic;
      var rsp := Execute(TAG_NO_SESSIONS, CC_NV_READ_PUBLIC, BE32(nvIndex));
      if rsp.Err? {
        return Err(rsp.error);
      }
      var pubBytes := UnmarshalTPM2B(rsp.value);
      if pubBytes.Err? {
        return Err(pubBytes.error);
      }
      var pub := ParseNVPublic(pubBytes.value.0);
      if pub.Err? {
        return Err(pub.error);
      }
      var name := UnmarshalTPM2B(pubBytes.value.1);
      if name.Err? {
        return Err(name.error);
      }
      r := Ok((pub.value.0, name.value.0));
    }

    /** Seal to PCR values: the policy digest, and the object's private and public parts. */
    method SealToPCR(c: Suite, parent: U32, secret: Bytes, sel: seq<PCRSelection>, pcrValues: seq<Bytes>) returns (r: Result<(Bytes, Bytes, Bytes)>)
      requires |secret| + 4 <= 0xFFFF
      modifies t
      ensures var policy := PolicyPCRDigestSpec(c, sel, pcrValues);
              var (s, x) := CreateSpec(t.step, old(t.state), parent, secret, policy);
              t.state == s && r == match x case Ok((priv, pub)) => Ok((priv, pub, policy)) case Err(e) => Err(e)
    {
      hide CreateSpec, PolicyPCRDigestSpec;
      var policyDigest := PolicyPCRDigest(c, sel, pcrValues);
      var created := Create(parent, secret, policyDigest);
      if created.Err? {
        return Err(created.error);
      }
      r := Ok((created.value.0, created.value.1, policyDigest));
    }

    method UnsealWithPCR(parent: U32, priv: Bytes, pub: Bytes, sel: seq<PCRSelection>, nonceCaller: Bytes) returns (r: Result<Bytes>)
      requires Fits(priv) && Fits(pub) && Fits(nonceCaller)
      modifies t
      ensures (t.state, r) == UnsealWithPCRSpec(t.step, old(t.state), parent, priv, pub, sel, nonceCaller)
    {
      hide LoadSpec, StartAuthSessionSpec, PolicyPCRSpec, UnsealSpec;
      var item := Load(parent, priv, pub);
      if item.Err? {
        return Err(item.error);
      }
      var session := StartAuthSession(nonceCaller);
      if session.Err? {
        return Err(session.error);
      }
      var policy := PolicyPCR(session.value.0, sel);
      if policy.Err? {
        return Err(policy.error);
      }
      r := Unseal(item.value, session.value.0);
    }

    method ImportAndUnseal(parent: U32, objectPublic: Bytes, duplicate: Bytes, inSymSeed: Bytes, sel: seq<PCRSelection>, nonceCaller: Bytes)
      returns (r: Result<Bytes>)
      requires Fits(objectPublic) && Fits(nonceCaller)
      modifies t
      ensures (t.state, r) == ImportAndUnsealSpec(t.step, old(t.state), parent, objectPublic, duplicate, inSymSeed, sel, nonceCaller)
    {
      hide ImportSpec, LoadSpec, StartAuthSessionSpec, PolicyPCRSpec, UnsealSpec;
      var outPrivate := Import(parent, objectPublic, duplicate, inSymSeed);
      if outPrivate.Err? {
        return outPrivate;
      }
      var item := Load(parent, outPrivate.value, objectPublic);
      if item.Err? {
        return Err(item.error);
      }
      var session := StartAuthSession(nonceCaller);
      if session.Err? {
        return Err(session.error);
      }
      var policy := PolicyPCR(session.value.0, sel);
      if policy.Err? {
        return Err(policy.error);
      }
      r := Unseal(item.value, session.value.0);
    }

    method ActivateAKWithEK(c: Suite, ak: U32, ek: U32, akPublic: Bytes, ekPublic: Bytes, credential: Bytes, nonceCaller: Bytes, ephemeral: Option<nat>)
      returns (r: Result<Bytes>)
      requires Wrappable(credential) && Fits(nonceCaller)
      modifies t
      ensures (t.state, r) == ActivateAKWithEKSpec(t.step, old(t.state), c, ak, ek, akPublic, ekPublic, credential, nonceCaller, ephemeral)
    {
      hide ObjectName, PointIn, MakeCredentialSpec, StartAuthSessionSpec, PolicySecretSpec, ActivateCredentialSpec;
      var akName := ObjectName(c, akPublic);
      if akName.Err? {
        return Err(akName.error);
      }
      var ekPoint := ParseTPMTPublicECCPoint(ekPublic);
      if ekPoint.Err? {
        return Err(ekPoint.error);
      }
      var mc := MakeCredential(c, ekPoint.value, akName.value, credential, ephemeral);
      if mc.Err? {
        return Err(mc.error);
      }
      var session := StartAuthSession(nonceCaller);
      if session.Err? {
        return Err(session.error);
      }
      var policy := PolicySecret(RH_ENDORSEMENT, session.value.0);
      if policy.Err? {
        return Err(policy.error);
      }
      r := ActivateCredential(ak, ek, session.value.0, mc.value.wrapped, mc.value.secret);
    }
  }
}
