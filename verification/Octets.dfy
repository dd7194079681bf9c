/**
  The command buffers octet by octet: for every command the client issues, its
  frame with tag, command code, authorization area and parameters written out.
  These are layouts a reader can hold against the TPM 2.0 Library; they name
  neither the body functions' parts nor the decoder.
 */
module Octets {
  import opened Wire
  import opened Pcr
  import opened PublicArea
  import opened Policy
  import opened Transport
  import opened Commands
  import opened Client

  /** authorizationSize 9, then the empty-password session TPM_RS_PW with continueSession set. */
  const PASSWORD_AREA: Bytes := [0, 0, 0, 9, 0x40, 0x00, 0x00, 0x09, 0, 0, 0x01, 0, 0]

  /** authorizationSize 9, then a policy session with neither nonce nor HMAC, continueSession set. */
  function PolicyArea(session: U32): Bytes {
    [0, 0, 0, 9] + (BE32(session) + [0, 0, 0x01, 0, 0])
  }

  const WITH_SESSIONS: Bytes := [0x80, 0x02]
  const WITHOUT_SESSIONS: Bytes := [0x80, 0x01]

  /** Tag, size of the whole buffer, command code, body. */
  predicate IsCommand(b: Bytes, tag: Bytes, cc: Bytes, body: Bytes)
    requires Frameable(body)
  {
    b == tag + (BE32(10 + |body|) + (cc + body))
  }

  lemma PasswordAuthOctets()
    ensures MarshalPasswordAuth() == [0x40, 0x00, 0x00, 0x09, 0, 0, 0x01, 0, 0]
  {
    BE32Octets(RS_PW, 0x40, 0x00, 0x00, 0x09);
    TPM2BOctets([], 0, 0);
    hide BE32, TPM2B;
    assert [0, 0] + [] == [0, 0];
    assert [0x40, 0x00, 0x00, 0x09] + ([0, 0] + ([0x01] + [0, 0])) == [0x40, 0x00, 0x00, 0x09, 0, 0, 0x01, 0, 0];
  }

  lemma PolicyAuthOctets(session: U32)
    ensures MarshalPolicyAuth(session) == BE32(session) + [0, 0, 0x01, 0, 0]
  {
    TPM2BOctets([], 0, 0);
    hide BE32, TPM2B;
    assert [0, 0] + [] == [0, 0];
    assert [0, 0] + ([0x01] + [0, 0]) == [0, 0, 0x01, 0, 0];
  }

  lemma PasswordAreaOctets(tail: Bytes)
    ensures OneAuth(PasswordAuth(), tail) == PASSWORD_AREA + tail
  {
    PasswordAuthOctets();
    BE32Octets(9, 0, 0, 0, 9);
    hide BE32, PutAuth, Size;
    Reassociate([0, 0, 0, 9], MarshalPasswordAuth(), tail);
    assert [0, 0, 0, 9] + MarshalPasswordAuth() == PASSWORD_AREA;
  }

  lemma PolicyAreaOctets(session: U32, tail: Bytes)
    ensures OneAuth(PolicyAuth(session), tail) == PolicyArea(session) + tail
  {
    PolicyAuthOctets(session);
    BE32Octets(9, 0, 0, 0, 9);
    hide BE32, PutAuth, Size;
    Reassociate([0, 0, 0, 9], MarshalPolicyAuth(session), tail);
  }

  lemma CommandOctets(tag: U16, cc: U32, body: Bytes, t1: byte, t0: byte, c3: byte, c2: byte, c1: byte, c0: byte)
    requires Frameable(body) && tag == t1 as int * 0x100 + t0 as int
    requires cc == c3 as int * 0x100_0000 + c2 as int * 0x1_0000 + c1 as int * 0x100 + c0 as int
    ensures IsCommand(Frame(tag, cc, body), [t1, t0], [c3, c2, c1, c0], body)
  {
    hide BE16, BE32;
    BE16Octets(tag, t1, t0);
    BE32Octets(cc, c3, c2, c1, c0);
    assert (10 + |body|) % 0x1_0000_0000 == 10 + |body|;
  }

  /** PCR, password, one digest: its algorithm, then its octets. */
  lemma PCRExtendOctets(pcr: U32, hash: U16, digest: Bytes)
    requires Frameable(PCRExtendBody(pcr, hash, digest))
    ensures PCRExtendBody(pcr, hash, digest) == BE32(pcr) + (PASSWORD_AREA + ([0, 0, 0, 1] + (BE16(hash) + digest)))
    ensures IsCommand(Frame(TAG_SESSIONS, CC_PCR_EXTEND, PCRExtendBody(pcr, hash, digest)),
                      WITH_SESSIONS, [0x00, 0x00, 0x01, 0x82], PCRExtendBody(pcr, hash, digest))
  {
    CommandOctets(TAG_SESSIONS, CC_PCR_EXTEND, PCRExtendBody(pcr, hash, digest), 0x80, 0x02, 0x00, 0x00, 0x01, 0x82);
    BE32Octets(1, 0, 0, 0, 1);
    hide BE16, BE32, OneAuth, Frame, IsCommand;
    PasswordAreaOctets([0, 0, 0, 1] + (BE16(hash) + digest));
  }

  /** Parent, password, sensitive (empty userAuth, then the data), public area, empty outsideInfo, no creation PCRs. */
  lemma CreateOctets(parent: U32, secret: Bytes, area: Bytes)
    requires |secret| + 4 <= 0xFFFF && Fits(area)
    ensures CreateBody(parent, secret, area)
            == BE32(parent) + (PASSWORD_AREA + (TPM2B([0, 0] + TPM2B(secret)) + (TPM2B(area) + [0, 0, 0, 0, 0, 0])))
    ensures IsCommand(Frame(TAG_SESSIONS, CC_CREATE, CreateBody(parent, secret, area)),
                      WITH_SESSIONS, [0x00, 0x00, 0x01, 0x53], CreateBody(parent, secret, area))
  {
    CommandOctets(TAG_SESSIONS, CC_CREATE, CreateBody(parent, secret, area), 0x80, 0x02, 0x00, 0x00, 0x01, 0x53);
    BE16Octets(0, 0, 0);
    BE32Octets(0, 0, 0, 0, 0);
    hide BE16, BE32, OneAuth, TPM2B, Frame, IsCommand;
    assert [0, 0] + [0, 0, 0, 0] == [0, 0, 0, 0, 0, 0];
    PasswordAreaOctets(TPM2B([0, 0] + TPM2B(secret)) + (TPM2B(area) + [0, 0, 0, 0, 0, 0]));
  }

  /** Parent, password, private blob, public area. */
  lemma LoadOctets(parent: U32, priv: Bytes, pub: Bytes)
    requires Fits(priv) && Fits(pub)
    ensures LoadBody(parent, priv, pub) == BE32(parent) + (PASSWORD_AREA + (TPM2B(priv) + TPM2B(pub)))
    ensures IsCommand(Frame(TAG_SESSIONS, CC_LOAD, LoadBody(parent, priv, pub)),
                      WITH_SESSIONS, [0x00, 0x00, 0x01, 0x57], LoadBody(parent, priv, pub))
  {
    CommandOctets(TAG_SESSIONS, CC_LOAD, LoadBody(parent, priv, pub), 0x80, 0x02, 0x00, 0x00, 0x01, 0x57);
    hide BE32, OneAuth, TPM2B, Frame, IsCommand;
    assert TPM2B(pub) + [] == TPM2B(pub);
    PasswordAreaOctets(TPM2B(priv) + TPM2B(pub));
  }

  /** Parent, password, empty encryptionKey, public area, the two blobs as given, TPM_ALG_NULL. */
  lemma ImportOctets(parent: U32, objectPublic: Bytes, duplicate: Bytes, inSymSeed: Bytes)
    requires Fits(objectPublic) && Frameable(ImportBody(parent, objectPublic, duplicate, inSymSeed))
    ensures ImportBody(parent, objectPublic, duplicate, inSymSeed)
            == BE32(parent) + (PASSWORD_AREA + ([0, 0] + (TPM2B(objectPublic) + (duplicate + (inSymSeed + [0x00, 0x10])))))
    ensures IsCommand(Frame(TAG_SESSIONS, CC_IMPORT, ImportBody(parent, objectPublic, duplicate, inSymSeed)),
                      WITH_SESSIONS, [0x00, 0x00, 0x01, 0x56], ImportBody(parent, objectPublic, duplicate, inSymSeed))
  {
    CommandOctets(TAG_SESSIONS, CC_IMPORT, ImportBody(parent, objectPublic, duplicate, inSymSeed), 0x80, 0x02, 0x00, 0x00, 0x01, 0x56);
    BE16Octets(0, 0, 0);
    BE16Octets(ALG_NULL, 0x00, 0x10);
    hide BE16, BE32, OneAuth, TPM2B, Frame, IsCommand;
    assert [0x00, 0x10] + [] == [0x00, 0x10];
    PasswordAreaOctets([0, 0] + (TPM2B(objectPublic) + (duplicate + (inSymSeed + [0x00, 0x10]))));
  }

  /** No key, no bind, the nonce, no salt, TPM_SE_POLICY, no cipher, SHA-256. */
  lemma StartAuthSessionOctets(nonceCaller: Bytes)
    requires Fits(nonceCaller)
    ensures StartAuthSessionBody(nonceCaller)
            == [0x40, 0x00, 0x00, 0x07] + ([0x40, 0x00, 0x00, 0x07] + (TPM2B(nonceCaller) + [0, 0, 0x01, 0x00, 0x10, 0x00, 0x0B]))
    ensures IsCommand(Frame(TAG_NO_SESSIONS, CC_START_AUTH_SESSION, StartAuthSessionBody(nonceCaller)),
                      WITHOUT_SESSIONS, [0x00, 0x00, 0x01, 0x76], StartAuthSessionBody(nonceCaller))
  {
    CommandOctets(TAG_NO_SESSIONS, CC_START_AUTH_SESSION, StartAuthSessionBody(nonceCaller), 0x80, 0x01, 0x00, 0x00, 0x01, 0x76);
    BE32Octets(RH_NULL, 0x40, 0x00, 0x00, 0x07);
    BE16Octets(0, 0, 0);
    BE16Octets(ALG_NULL, 0x00, 0x10);
    BE16Octets(ALG_SHA256, 0x00, 0x0B);
    hide BE16, BE32, TPM2B, Frame, IsCommand;
    assert [0, 0] + ([0x01] + ([0x00, 0x10] + ([0x00, 0x0B] + []))) == [0, 0, 0x01, 0x00, 0x10, 0x00, 0x0B];
  }

  /** Session, empty pcrDigest, selection. */
  lemma PolicyPCROctets(session: U32, sel: seq<PCRSelection>)
    requires Frameable(PolicyPCRBody(session, sel))
    ensures PolicyPCRBody(session, sel) == BE32(session) + ([0, 0] + MarshalList(sel))
    ensures IsCommand(Frame(TAG_NO_SESSIONS, CC_POLICY_PCR, PolicyPCRBody(session, sel)),
                      WITHOUT_SESSIONS, [0x00, 0x00, 0x01, 0x7F], PolicyPCRBody(session, sel))
  {
    CommandOctets(TAG_NO_SESSIONS, CC_POLICY_PCR, PolicyPCRBody(session, sel), 0x80, 0x01, 0x00, 0x00, 0x01, 0x7F);
    BE16Octets(0, 0, 0);
    hide BE16, BE32, MarshalList, Frame, IsCommand;
    assert MarshalList(sel) + [] == MarshalList(sel);
  }

  /** Both handles, one password, empty nonceTPM, cpHashA and policyRef, expiration 0. */
  lemma PolicySecretOctets(authHandle: U32, session: U32)
    ensures PolicySecretBody(authHandle, session)
            == BE32(authHandle) + (BE32(session) + (PASSWORD_AREA + [0, 0, 0, 0, 0, 0, 0, 0, 0, 0]))
    ensures IsCommand(Frame(TAG_SESSIONS, CC_POLICY_SECRET, PolicySecretBody(authHandle, session)),
                      WITH_SESSIONS, [0x00, 0x00, 0x01, 0x51], PolicySecretBody(authHandle, session))
    ensures BE32(RH_ENDORSEMENT) == [0x40, 0x00, 0x00, 0x0B]
  {
    CommandOctets(TAG_SESSIONS, CC_POLICY_SECRET, PolicySecretBody(authHandle, session), 0x80, 0x02, 0x00, 0x00, 0x01, 0x51);
    BE32Octets(RH_ENDORSEMENT, 0x40, 0x00, 0x00, 0x0B);
    BE16Octets(0, 0, 0);
    BE32Octets(0, 0, 0, 0, 0);
    hide BE16, BE32, OneAuth, Frame, IsCommand;
    assert [0, 0] + ([0, 0] + ([0, 0] + ([0, 0, 0, 0] + []))) == [0, 0, 0, 0, 0, 0, 0, 0, 0, 0];
    PasswordAreaOctets([0, 0, 0, 0, 0, 0, 0, 0, 0, 0]);
  }

  /** Item, policy session, nothing else. */
  lemma UnsealOctets(item: U32, session: U32)
    ensures UnsealBody(item, session) == BE32(item) + PolicyArea(session)
    ensures IsCommand(Frame(TAG_SESSIONS, CC_UNSEAL, UnsealBody(item, session)),
                      WITH_SESSIONS, [0x00, 0x00, 0x01, 0x5E], UnsealBody(item, session))
  {
    CommandOctets(TAG_SESSIONS, CC_UNSEAL, UnsealBody(item, session), 0x80, 0x02, 0x00, 0x00, 0x01, 0x5E);
    hide BE32, OneAuth, Frame, IsCommand, PolicyArea;
    PolicyAreaOctets(session, []);
    assert PolicyArea(session) + [] == PolicyArea(session);
  }

  /** AK, EK, authorizationSize 18, the AK's password, the EK's policy session, the two blobs as given. */
  lemma ActivateCredentialOctets(activate: U32, key: U32, session: U32, credentialBlob: Bytes, secret: Bytes)
    requires Frameable(ActivateCredentialBody(activate, key, session, credentialBlob, secret))
    ensures ActivateCredentialBody(activate, key, session, credentialBlob, secret)
            == BE32(activate) + (BE32(key) + (([0, 0, 0, 18] + ([0x40, 0x00, 0x00, 0x09, 0, 0, 0x01, 0, 0] + (BE32(session) + [0, 0, 0x01, 0, 0])))
               + (credentialBlob + secret)))
    ensures IsCommand(Frame(TAG_SESSIONS, CC_ACTIVATE_CREDENTIAL, ActivateCredentialBody(activate, key, session, credentialBlob, secret)),
                      WITH_SESSIONS, [0x00, 0x00, 0x01, 0x47], ActivateCredentialBody(activate, key, session, credentialBlob, secret))
  {
    CommandOctets(TAG_SESSIONS, CC_ACTIVATE_CREDENTIAL, ActivateCredentialBody(activate, key, session, credentialBlob, secret),
                  0x80, 0x02, 0x00, 0x00, 0x01, 0x47);
    PasswordAuthOctets();
    PolicyAuthOctets(session);
    BE32Octets(18, 0, 0, 0, 18);
    hide BE32, PutAuth, Frame, IsCommand, MarshalPasswordAuth, MarshalPolicyAuth;
    var a, b := MarshalPasswordAuth(), MarshalPolicyAuth(session);
    assert Concat([b]) == b && Concat([a, b]) == a + Concat([b]);
    assert secret + [] == secret;
    hide Size;
  }

  /** Key, password, nonce, TPM_ALG_NULL, selection. */
  lemma QuoteOctets(key: U32, qualifyingData: Bytes, sel: seq<PCRSelection>)
    requires Fits(qualifyingData) && Frameable(QuoteBody(key, qualifyingData, sel))
    ensures QuoteBody(key, qualifyingData, sel)
            == BE32(key) + (PASSWORD_AREA + (TPM2B(qualifyingData) + ([0x00, 0x10] + MarshalList(sel))))
    ensures IsCommand(Frame(TAG_SESSIONS, CC_QUOTE, QuoteBody(key, qualifyingData, sel)),
                      WITH_SESSIONS, [0x00, 0x00, 0x01, 0x58], QuoteBody(key, qualifyingData, sel))
  {
    CommandOctets(TAG_SESSIONS, CC_QUOTE, QuoteBody(key, qualifyingData, sel), 0x80, 0x02, 0x00, 0x00, 0x01, 0x58);
    BE16Octets(ALG_NULL, 0x00, 0x10);
    hide BE16, BE32, OneAuth, TPM2B, MarshalList, Frame, IsCommand;
    assert MarshalList(sel) + [] == MarshalList(sel);
    PasswordAreaOctets(TPM2B(qualifyingData) + ([0x00, 0x10] + MarshalList(sel)));
  }

  /** The three commands without sessions that read: selector, property, count; the selection; the index. */
  lemma ReadCommandOctets(capSel: U32, prop: U32, count: U32, sel: seq<PCRSelection>, nvIndex: U32)
    requires Frameable(MarshalList(sel))
    ensures CapabilityBody(capSel, prop, count) == BE32(capSel) + (BE32(prop) + BE32(count))
    ensures |CapabilityBody(capSel, prop, count)| == 12
    ensures IsCommand(Frame(TAG_NO_SESSIONS, CC_GET_CAPABILITY, CapabilityBody(capSel, prop, count)),
                      WITHOUT_SESSIONS, [0x00, 0x00, 0x01, 0x7A], CapabilityBody(capSel, prop, count))
    ensures IsCommand(Frame(TAG_NO_SESSIONS, CC_PCR_READ, MarshalList(sel)), WITHOUT_SESSIONS, [0x00, 0x00, 0x01, 0x7E], MarshalList(sel))
    ensures IsCommand(Frame(TAG_NO_SESSIONS, CC_NV_READ_PUBLIC, BE32(nvIndex)), WITHOUT_SESSIONS, [0x00, 0x00, 0x01, 0x69], BE32(nvIndex))
  {
    CommandOctets(TAG_NO_SESSIONS, CC_GET_CAPABILITY, CapabilityBody(capSel, prop, count), 0x80, 0x01, 0x00, 0x00, 0x01, 0x7A);
    CommandOctets(TAG_NO_SESSIONS, CC_PCR_READ, MarshalList(sel), 0x80, 0x01, 0x00, 0x00, 0x01, 0x7E);
    CommandOctets(TAG_NO_SESSIONS, CC_NV_READ_PUBLIC, BE32(nvIndex), 0x80, 0x01, 0x00, 0x00, 0x01, 0x69);
    hide BE32, MarshalList, Frame, IsCommand;
  }
}
