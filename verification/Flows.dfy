/**
  The flows end to end: the client's commands, as functions of a transport, run
  against the reference TPM. Each step lemma says what one client command does to
  a TPM that is in a position to accept it; the theorems compose them.
 */
module Flows {
  import opened Wire
  import opened Crypto
  import opened Kdf
  import opened Pcr
  import opened PublicArea
  import opened Policy
  import opened OuterWrap
  import opened Duplication
  import opened Credential
  import opened Attest
  import opened Transport
  import opened Commands
  import opened RefTpm
  import opened Safety
  import opened Client

  // ---------------------------------------------------------------------
  // A TPM in a position to accept the flows
  // ---------------------------------------------------------------------

  /** A loaded key that the empty password may use. */
  predicate Usable(st: Tpm, h: U32) {
    h in st.objects && st.objects[h].secret.PrivateKey? && HasAttribute(st.objects[h].attributes, USER_WITH_AUTH)
  }

  /** Room for one more object and one more session. */
  predicate HasRoom(st: Tpm) {
    st.objectCount < HANDLE_SPACE && st.sessionCount < HANDLE_SPACE
  }

  /** A selection whose PolicyPCR command has a size of 32 bits. */
  predicate Listable(sel: seq<PCRSelection>) {
    20 + 6 * |sel| < 0x1_0000_0000
  }

  lemma UsableParent(st: Tpm, h: U32)
    requires Usable(st, h)
    ensures ParentKey(st, h, [PasswordAuth()]) == Ok(st.objects[h])
    ensures PasswordAuthorizes(st.objects[h], PasswordAuth())
  {
    hide HasAttribute;
  }

  // ---------------------------------------------------------------------
  // One command each
  // ---------------------------------------------------------------------

  lemma Accepted(c: Suite, st: Tpm, tag: U16, cc: U32, body: Bytes, cmd: Command, next: Tpm, params: Bytes)
    requires Frameable(body) && DecodeBody(tag, cc, body) == Ok(cmd) && Exec(c, st, cmd) == Ok((next, params))
    ensures Issue(Device(c), st, tag, cc, body) == (next, Ok(params))
  {
    hide *;
    IssueOnce(c, st, tag, cc, body);
  }

  lemma CodeForRefused(rc: U32)
    requires rc != RC_SUCCESS && rc != RC_RETRY
    ensures CodeFor(Refused(rc)) == rc
  {
  }

  lemma Rejected(c: Suite, st: Tpm, tag: U16, cc: U32, body: Bytes, cmd: Command, rc: U32)
    requires Frameable(body) && DecodeBody(tag, cc, body) == Ok(cmd) && Exec(c, st, cmd) == Err(Refused(rc))
    requires rc != RC_SUCCESS && rc != RC_RETRY
    ensures Issue(Device(c), st, tag, cc, body) == (st, Err(TpmError(cc, rc)))
  {
    hide *;
    CodeForRefused(rc);
    IssueOnce(c, st, tag, cc, body);
  }

  /** PCR_Extend folds the digest into one PCR of one bank and changes nothing else but the counter. */
  lemma PCRExtendStep(c: Suite, st: Tpm, pcr: U32, hash: U16, digest: Bytes)
    requires hash in st.banks && pcr < |st.banks[hash]| && DigestSize(hash) == Some(|digest|)
    ensures var extended := st.banks[hash][pcr := c.pcrHash(hash, st.banks[hash][pcr] + digest)];
            Issue(Device(c), st, TAG_SESSIONS, CC_PCR_EXTEND, PCRExtendBody(pcr, hash, digest))
            == (st.(banks := st.banks[hash := extended], pcrCounter := st.pcrCounter + 1), Ok(BE32(0)))
  {
    hide Issue, Device, PCRExtendBody, DecodeBody, BE32;
    var extended := st.banks[hash][pcr := c.pcrHash(hash, st.banks[hash][pcr] + digest)];
    DecodePCRExtendBody(pcr, hash, digest);
    Accepted(c, st, TAG_SESSIONS, CC_PCR_EXTEND, PCRExtendBody(pcr, hash, digest), Command.PcrExtend(pcr, [PasswordAuth()], hash, digest),
             st.(banks := st.banks[hash := extended], pcrCounter := st.pcrCounter + 1), BE32(0));
  }

  lemma ImportStep(c: Suite, st: Tpm, parent: U32, area: Bytes, duplicate: Bytes, inSymSeed: Bytes, plain: Bytes)
    requires Usable(st, parent) && Fits(area) && Fits(duplicate) && Fits(inSymSeed) && Wrappable(plain)
    requires ImportedSensitive(c, st.objects[parent], area, duplicate, inSymSeed) == Ok(plain)
    ensures ImportSpec(Device(c), st, parent, area, TPM2B(duplicate), TPM2B(inSymSeed))
            == (st, Ok(PrivateBlob(c, st.objects[parent].secret.protectionSeed, area, plain)))
  {
    hide Issue, Device, ImportBody, DecodeBody, ParentKey, ImportedSensitive, PrivateBlob, TPM2B, BE32, SizedResult, HasAttribute;
    var blob := PrivateBlob(c, st.objects[parent].secret.protectionSeed, area, plain);
    DecodeImportBody(parent, area, duplicate, inSymSeed);
    UsableParent(st, parent);
    Accepted(c, st, TAG_SESSIONS, CC_IMPORT, ImportBody(parent, area, TPM2B(duplicate), TPM2B(inSymSeed)),
             Command.Import(parent, [PasswordAuth()], area, duplicate, inSymSeed), st, BE32(0) + (TPM2B(blob) + []));
    SizedResultPut(0, blob, []);
  }

  lemma LoadStep(c: Suite, st: Tpm, parent: U32, priv: Bytes, pub: Bytes, o: Object)
    requires Usable(st, parent) && Fits(priv) && Fits(pub) && st.objectCount < HANDLE_SPACE
    requires LoadedObject(c, st.objects[parent], priv, pub) == Ok(o)
    ensures LoadSpec(Device(c), st, parent, priv, pub) == (WithObject(st, o), Ok(TRANSIENT_BASE + st.objectCount))
  {
    hide Issue, Device, LoadBody, DecodeBody, ParentKey, LoadedObject, TPM2B, BE32, TakeU32, NameOf, HasAttribute;
    var handle: U32 := TRANSIENT_BASE + st.objectCount;
    DecodeLoadBody(parent, priv, pub);
    UsableParent(st, parent);
    Accepted(c, st, TAG_SESSIONS, CC_LOAD, LoadBody(parent, priv, pub),
             Command.Load(parent, [PasswordAuth()], priv, pub), WithObject(st, o), BE32(handle) + (BE32(0) + TPM2B(NameOf(c, pub))));
    LoadResultPut(handle, BE32(0) + TPM2B(NameOf(c, pub)));
  }

  /** The public area Create answers with: the template, its unique field filled in. */
  function CreatedArea(c: Suite, st: Tpm, secret: Bytes, policyDigest: Digest): (b: Bytes)
    ensures |b| == 78
  {
    PutSealed(SealArea(policyDigest).(unique := UniqueOf(c, c.tpmRandom(st.draws), secret)), [])
  }

  /** And the private blob: the secret under a seed value of the TPM's own. */
  function CreatedBlob(c: Suite, st: Tpm, parent: U32, secret: Bytes, policyDigest: Digest): (b: Bytes)
    requires parent in st.objects && st.objects[parent].secret.PrivateKey? && SealableSecret(secret)
    ensures Fits(b)
  {
    PrivateBlob(c, st.objects[parent].secret.protectionSeed, CreatedArea(c, st, secret, policyDigest),
                MarshalSealSensitive(c.tpmRandom(st.draws), secret))
  }

  lemma CreateExec(c: Suite, st: Tpm, parent: U32, secret: Bytes, policyDigest: Digest)
    requires Usable(st, parent) && SealableSecret(secret)
    ensures DoCreate(c, st, parent, [PasswordAuth()], [], secret, PutSealed(SealArea(policyDigest), []))
            == Ok((st.(draws := st.draws + 1),
                   BE32(0) + (TPM2B(CreatedBlob(c, st, parent, secret, policyDigest)) + (TPM2B(CreatedArea(c, st, secret, policyDigest)) + CREATION_TAIL))))
  {
    hide ParentKey, PrivateBlob, TPM2B, BE32, PutSealed, TakeSealed, PutSensitive, UniqueOf, HasAttribute;
    TakeSealedPut(SealArea(policyDigest), []);
    UsableParent(st, parent);
  }

  lemma CreateStep(c: Suite, st: Tpm, parent: U32, secret: Bytes, policyDigest: Digest)
    requires Usable(st, parent) && SealableSecret(secret)
    ensures CreateSpec(Device(c), st, parent, secret, policyDigest)
            == (st.(draws := st.draws + 1),
                Ok((CreatedBlob(c, st, parent, secret, policyDigest), CreatedArea(c, st, secret, policyDigest))))
  {
    hide Issue, Device, CreateBody, DecodeBody, TPM2B, BE32, PutSealed, CreateResult, DoCreate, CreatedBlob, CreatedArea, HasAttribute;
    var template := PutSealed(SealArea(policyDigest), []);
    var area, blob := CreatedArea(c, st, secret, policyDigest), CreatedBlob(c, st, parent, secret, policyDigest);
    DecodeCreateBody(parent, secret, template);
    CreateExec(c, st, parent, secret, policyDigest);
    Accepted(c, st, TAG_SESSIONS, CC_CREATE, CreateBody(parent, secret, template),
             Command.Create(parent, [PasswordAuth()], [], secret, template), st.(draws := st.draws + 1),
             BE32(0) + (TPM2B(blob) + (TPM2B(area) + CREATION_TAIL)));
    CreateResultPut(0, blob, area, CREATION_TAIL);
  }

  /** The handle and the state StartAuthSession leaves. */
  function SessionHandle(st: Tpm): U32
    requires st.sessionCount < HANDLE_SPACE
  {
    SESSION_BASE + st.sessionCount
  }

  function WithSession(st: Tpm): Tpm
    requires st.sessionCount < HANDLE_SPACE
  {
    st.(sessions := st.sessions[SessionHandle(st) := FreshSession()], sessionCount := st.sessionCount + 1, draws := st.draws + 1)
  }

  lemma StartStep(c: Suite, st: Tpm, nonceCaller: Bytes)
    requires st.sessionCount < HANDLE_SPACE && Fits(nonceCaller)
    ensures StartAuthSessionSpec(Device(c), st, nonceCaller) == (WithSession(st), Ok((SessionHandle(st), c.tpmRandom(st.draws))))
  {
    hide Issue, Device, StartAuthSessionBody, DecodeBody, TPM2B, BE32, StartResult;
    var nonceTPM := c.tpmRandom(st.draws);
    DecodeStartAuthSessionBody(nonceCaller);
    Accepted(c, st, TAG_NO_SESSIONS, CC_START_AUTH_SESSION, StartAuthSessionBody(nonceCaller),
             Command.StartAuthSession(nonceCaller), WithSession(st), BE32(SessionHandle(st)) + (TPM2B(nonceTPM) + []));
    StartResultPut(SessionHandle(st), nonceTPM);
  }

  lemma {:induction false} OnlyBanksMissing(banks: map<U16, seq<Bytes>>, sel: seq<PCRSelection>)
    ensures SelectedValues(banks, sel).Err? ==> SelectedValues(banks, sel) == Err(Refused(RC_HASH))
  {
    if sel != [] {
      OnlyBanksMissing(banks, sel[1..]);
    }
  }

  /** The digest a session accumulates over the normal form is the one computed offline over the list itself. */
  lemma SessionDigest(c: Suite, sel: seq<PCRSelection>, live: seq<Bytes>)
    ensures Extend(c, Zeros(32), PcrAsserted(NormalList(sel), Concat(live))) == PolicyPCRDigestSpec(c, sel, live)
  {
    MarshalNormal(sel);
    hide MarshalList, NormalList, BE32;
  }

  /** A session that has run PolicyPCR once, just now. */
  function PolicySession(c: Suite, st: Tpm, sel: seq<PCRSelection>, live: seq<Bytes>): Session {
    Session(PolicyPCRDigestSpec(c, sel, live), Some(st.pcrCounter), [PcrAsserted(NormalList(sel), Concat(live))])
  }

  function WithPolicySession(c: Suite, st: Tpm, h: U32, sel: seq<PCRSelection>, live: seq<Bytes>): Tpm {
    st.(sessions := st.sessions[h := PolicySession(c, st, sel, live)])
  }

  lemma PolicyPCRExec(c: Suite, st: Tpm, h: U32, sel: seq<PCRSelection>)
    requires h in st.sessions && st.sessions[h] == FreshSession()
    ensures var read := SelectedValues(st.banks, NormalList(sel));
            DoPolicyPCR(c, st, h, [], NormalList(sel))
            == if read.Err? then Err(Refused(RC_HASH)) else Ok((WithPolicySession(c, st, h, sel, read.value), []))
  {
    hide SelectedValues, NormalList, Extend, PolicyPCRDigestSpec;
    OnlyBanksMissing(st.banks, NormalList(sel));
    var read := SelectedValues(st.banks, NormalList(sel));
    if read.Ok? {
      SessionDigest(c, sel, read.value);
      var asserted := PcrAsserted(NormalList(sel), Concat(read.value));
      assert [] + [asserted] == [asserted];
    }
  }

  lemma PolicyPCRStep(c: Suite, st: Tpm, h: U32, sel: seq<PCRSelection>)
    requires h in st.sessions && st.sessions[h] == FreshSession() && Listable(sel)
    ensures var read := SelectedValues(st.banks, NormalList(sel));
            PolicyPCRSpec(Device(c), st, h, sel)
            == if read.Err? then (st, Err(TpmError(CC_POLICY_PCR, RC_HASH))) else (WithPolicySession(c, st, h, sel, read.value), Ok(()))
  {
    hide Issue, Device, PolicyPCRBody, DecodeBody, SelectedValues, NormalList, DoPolicyPCR, WithPolicySession;
    DecodePolicyPCRBody(h, sel);
    PolicyPCRExec(c, st, h, sel);
    var read := SelectedValues(st.banks, NormalList(sel));
    var cmd := Command.PolicyPCR(h, [], NormalList(sel));
    if read.Ok? {
      Accepted(c, st, TAG_NO_SESSIONS, CC_POLICY_PCR, PolicyPCRBody(h, sel), cmd, WithPolicySession(c, st, h, sel, read.value), []);
    } else {
      Rejected(c, st, TAG_NO_SESSIONS, CC_POLICY_PCR, PolicyPCRBody(h, sel), cmd, RC_HASH);
    }
  }

  function Endorsement(): Assertion {
    SecretAsserted(BE32(RH_ENDORSEMENT), [])
  }

  /** What ekAuthPolicy stands for: the digest of PolicySecret over the endorsement hierarchy. */
  function EndorsementPolicy(c: Suite): Digest {
    Extend(c, Zeros(32), Endorsement())
  }

  function WithEndorsedSession(c: Suite, st: Tpm, h: U32): Tpm {
    st.(sessions := st.sessions[h := Session(EndorsementPolicy(c), None, [Endorsement()])])
  }

  lemma PolicySecretStep(c: Suite, st: Tpm, h: U32)
    requires h in st.sessions && st.sessions[h] == FreshSession()
    ensures PolicySecretSpec(Device(c), st, RH_ENDORSEMENT, h) == (WithEndorsedSession(c, st, h), Ok(()))
  {
    hide Issue, Device, PolicySecretBody, DecodeBody, Extend, BE32;
    DecodePolicySecretBody(RH_ENDORSEMENT, h);
    assert [] + [Endorsement()] == [Endorsement()];
    Accepted(c, st, TAG_SESSIONS, CC_POLICY_SECRET, PolicySecretBody(RH_ENDORSEMENT, h),
             Command.PolicySecret(RH_ENDORSEMENT, h, [PasswordAuth()], []), WithEndorsedSession(c, st, h), BE32(0) + POLICY_SECRET_TAIL);
  }

  lemma UnsealStep(c: Suite, st: Tpm, item: U32, h: U32)
    requires item in st.objects && st.objects[item].secret.SealedData? && Fits(st.objects[item].secret.sensitive.data)
    requires h in st.sessions && h != RS_PW && st.sessions[h].pcrCounter == Some(st.pcrCounter)
    ensures UnsealSpec(Device(c), st, item, h).1
            == if st.sessions[h].policyDigest == st.objects[item].authPolicy then Ok(st.objects[item].secret.sensitive.data)
               else Err(TpmError(CC_UNSEAL, RC_POLICY_FAIL))
  {
    assert SizedResult(Err(TpmError(CC_UNSEAL, RC_POLICY_FAIL))) == Err(TpmError(CC_UNSEAL, RC_POLICY_FAIL));
    hide Issue, Device, UnsealBody, DecodeBody, TPM2B, BE32, SizedResult;
    var o := st.objects[item];
    var cmd := Command.Unseal(item, [PolicyAuth(h)]);
    DecodeUnsealBody(item, h);
    if st.sessions[h].policyDigest == o.authPolicy {
      Accepted(c, st, TAG_SESSIONS, CC_UNSEAL, UnsealBody(item, h), cmd, SessionUsed(st, PolicyAuth(h)), BE32(0) + (TPM2B(o.secret.sensitive.data) + []));
      SizedResultPut(0, o.secret.sensitive.data, []);
    } else {
      Rejected(c, st, TAG_SESSIONS, CC_UNSEAL, UnsealBody(item, h), cmd, RC_POLICY_FAIL);
    }
  }

  // ---------------------------------------------------------------------
  // Policy session, then Unseal
  // ---------------------------------------------------------------------

  /**
    What releasing `secret` under `policy` answers on this TPM: the secret exactly
    when the policy is the PCR digest of the live values, a policy failure when
    it is not, and RC_HASH from PolicyPCR when a selected bank does not exist.
   */
  function Released(c: Suite, st: Tpm, sel: seq<PCRSelection>, policy: Bytes, secret: Bytes): Result<Bytes> {
    match SelectedValues(st.banks, NormalList(sel))
    case Err(_) => Err(TpmError(CC_POLICY_PCR, RC_HASH))
    case Ok(live) =>
      if PolicyPCRDigestSpec(c, sel, live) == policy then Ok(secret) else Err(TpmError(CC_UNSEAL, RC_POLICY_FAIL))
  }

  lemma PolicyUnsealFlow(c: Suite, st: Tpm, item: U32, sel: seq<PCRSelection>, nonceCaller: Bytes)
    requires st.sessionCount < HANDLE_SPACE && Fits(nonceCaller) && Listable(sel)
    requires item in st.objects && st.objects[item].secret.SealedData? && Fits(st.objects[item].secret.sensitive.data)
    ensures PolicyUnsealSpec(Device(c), st, item, sel, nonceCaller).1
            == Released(c, st, sel, st.objects[item].authPolicy, st.objects[item].secret.sensitive.data)
  {
    var h, started := SessionHandle(st), WithSession(st);
    StartStep(c, st, nonceCaller);
    PolicyPCRStep(c, started, h, sel);
    hide StartAuthSessionSpec, PolicyPCRSpec, UnsealSpec, SelectedValues, NormalList, PolicyPCRDigestSpec, Device;
    var live := SelectedValues(st.banks, NormalList(sel));
    if live.Ok? {
      UnsealStep(c, started.(sessions := started.sessions[h := PolicySession(c, started, sel, live.value)]), item, h);
    }
  }

  lemma LoadUnsealFlow(c: Suite, st: Tpm, parent: U32, priv: Bytes, pub: Bytes, o: Object, sel: seq<PCRSelection>, nonceCaller: Bytes)
    requires HasRoom(st) && Usable(st, parent) && Fits(priv) && Fits(pub) && Fits(nonceCaller) && Listable(sel)
    requires LoadedObject(c, st.objects[parent], priv, pub) == Ok(o)
    requires o.secret.SealedData? && Fits(o.secret.sensitive.data)
    ensures UnsealWithPCRSpec(Device(c), st, parent, priv, pub, sel, nonceCaller).1 == Released(c, st, sel, o.authPolicy, o.secret.sensitive.data)
  {
    hide LoadSpec, PolicyUnsealSpec, Released, LoadedObject, HasAttribute, Device;
    LoadStep(c, st, parent, priv, pub, o);
    var item: U32 := TRANSIENT_BASE + st.objectCount;
    PolicyUnsealFlow(c, WithObject(st, o), item, sel, nonceCaller);
    SameRelease(c, st, WithObject(st, o), sel, o.authPolicy, o.secret.sensitive.data);
  }

  lemma SameRelease(c: Suite, st: Tpm, other: Tpm, sel: seq<PCRSelection>, policy: Bytes, secret: Bytes)
    requires st.banks == other.banks
    ensures Released(c, st, sel, policy, secret) == Released(c, other, sel, policy, secret)
  {
    hide SelectedValues, NormalList, PolicyPCRDigestSpec;
  }

  /** The object a private blob made by this TPM denotes. */
  lemma LoadedHonest(c: Suite, key: Object, a: SealedArea, s: Sensitive)
    requires key.secret.PrivateKey? && Fits(s.authValue) && |s.seedValue| == 32 && Fits(s.data) && Wrappable(PutSensitive(s))
    requires a.nameAlg == ALG_SHA256 && Fits(a.policy) && a.unique == UniqueOf(c, s.seedValue, s.data)
    ensures var area := PutSealed(a, []);
            LoadedObject(c, key, PrivateBlob(c, key.secret.protectionSeed, area, PutSensitive(s)), area)
            == Ok(Object(area, a.attributes, a.policy, SealedData(s)))
  {
    var area := PutSealed(a, []);
    TakeSealedPut(a, []);
    TakeSensitivePut(s);
    OpenSeal(c, key.secret.protectionSeed, NameOf(c, area), PutSensitive(s));
    hide TakeSealed, PutSealed, TakeSensitive, PutSensitive, Open, Seal, NameOf, UniqueOf;
  }

  // ---------------------------------------------------------------------
  // Duplication
  // ---------------------------------------------------------------------

  lemma SealedPublicPut(a: SealedArea)
    requires Fits(a.policy) && Fits(a.unique) && a.nameAlg == ALG_SHA256
    ensures SealedPublic(PutSealed(a, [])) == Ok(a)
  {
    hide TakeSealed, PutSealed;
    TakeSealedPut(a, []);
  }

  /** The storage key's TPM accepts WrapToPCR's blobs and recovers the sensitive area inside. */
  lemma WrappedIsAccepted(c: Suite, key: Object, s: nat, obfuscation: Digest, secret: Bytes, policy: Digest)
    requires c.Lawful() && key.secret.PrivateKey? && c.IsScalar(key.secret.d) && c.IsScalar(s) && SealableSecret(secret)
    ensures var area := ImportArea(c, obfuscation, secret, policy);
            var seed := SenderSeed(c, LABEL_DUPLICATE, s, c.Public(key.secret.d));
            var plain := MarshalSealSensitive(obfuscation, secret);
            ImportedSensitive(c, key, area, Seal(c, seed, NameOf(c, area), plain), PutPoint(FixedPoint(c.Public(s)), [])) == Ok(plain)
  {
    var a := ImportSealArea(policy, UniqueOf(c, obfuscation, secret));
    var area := ImportArea(c, obfuscation, secret, policy);
    assert !HasAttribute(IMPORT_SEAL_ATTRIBUTES, FIXED_TPM) && !HasAttribute(IMPORT_SEAL_ATTRIBUTES, FIXED_PARENT);
    hide SealedPublic, PutSealed, TakeSensitive, PutSensitive, Unwrap, Seal, SenderSeed, PutPoint, FixedPoint, NameOf, UniqueOf, HasAttribute;
    SealedPublicPut(a);
    TakeSensitivePut(Sensitive([], obfuscation, secret));
    UnwrapWrap(c, LABEL_DUPLICATE, s, key.secret.d, NameOf(c, area), MarshalSealSensitive(obfuscation, secret));
  }

  /** The receiving half, over the contents of the two blobs. */
  lemma ImportUnsealFlow(c: Suite, st: Tpm, parent: U32, s: nat, obfuscation: Digest, secret: Bytes, policy: Digest,
                         sel: seq<PCRSelection>, nonceCaller: Bytes)
    requires c.Lawful() && c.IsScalar(s) && HasRoom(st) && Usable(st, parent) && c.IsScalar(st.objects[parent].secret.d)
    requires SealableSecret(secret) && Fits(nonceCaller) && Listable(sel)
    ensures var area := ImportArea(c, obfuscation, secret, policy);
            var seed := SenderSeed(c, LABEL_DUPLICATE, s, c.Public(st.objects[parent].secret.d));
            ImportAndUnsealSpec(Device(c), st, parent, area,
                                TPM2B(Seal(c, seed, NameOf(c, area), MarshalSealSensitive(obfuscation, secret))),
                                TPM2B(PutPoint(FixedPoint(c.Public(s)), [])), sel, nonceCaller).1
            == Released(c, st, sel, policy, secret)
  {
    var key := st.objects[parent];
    var area, plain := ImportArea(c, obfuscation, secret, policy), MarshalSealSensitive(obfuscation, secret);
    hide Seal, SenderSeed, NameOf, FixedPoint, PutPoint, LoadedObject, ImportedSensitive, PrivateBlob, UniqueOf, Suite.Lawful;
    hide Device, ImportSpec, UnsealWithPCRSpec, Released, HasAttribute, PutSealed, PutSensitive, TPM2B;
    WrappedIsAccepted(c, key, s, obfuscation, secret, policy);
    LoadedHonest(c, key, ImportSealArea(policy, UniqueOf(c, obfuscation, secret)), Sensitive([], obfuscation, secret));
    var wrapped := Seal(c, SenderSeed(c, LABEL_DUPLICATE, s, c.Public(key.secret.d)), NameOf(c, area), plain);
    ImportStep(c, st, parent, area, wrapped, PutPoint(FixedPoint(c.Public(s)), []), plain);
    var o := Object(area, IMPORT_SEAL_ATTRIBUTES, policy, SealedData(Sensitive([], obfuscation, secret)));
    LoadUnsealFlow(c, st, parent, PrivateBlob(c, key.secret.protectionSeed, area, plain), area, o, sel, nonceCaller);
  }

  /**
    Duplication end to end. For every storage-key scalar, ephemeral scalar,
    obfuscation value, secret, selection and PCR values: on a TPM holding the
    storage key, ImportAndUnseal of WrapToPCR's result returns the secret when
    the live PCRs give the policy digest wrapped to, and a policy failure from
    Unseal when they do not.
   */
  lemma ImportAndUnsealReturnsSecret(c: Suite, st: Tpm, parent: U32, srk: EccPoint, s: nat, obfuscation: Digest, secret: Bytes,
                                     sel: seq<PCRSelection>, pcrValues: seq<Bytes>, unsealSel: seq<PCRSelection>, nonceCaller: Bytes)
    requires c.Lawful() && c.IsScalar(s) && HasRoom(st) && Usable(st, parent)
    requires c.IsScalar(st.objects[parent].secret.d) && PointOf(srk) == c.Public(st.objects[parent].secret.d)
    requires SealableSecret(secret) && Fits(nonceCaller) && Listable(unsealSel)
    ensures WrapToPCRSpec(c, srk, secret, sel, pcrValues, Some(obfuscation), Some(s)).Ok?
    ensures var w := WrapToPCRSpec(c, srk, secret, sel, pcrValues, Some(obfuscation), Some(s)).value;
            && Fits(w.objectPublic)
            && ImportAndUnsealSpec(Device(c), st, parent, w.objectPublic, w.duplicate, w.inSymSeed, unsealSel, nonceCaller).1
               == Released(c, st, unsealSel, PolicyPCRDigestSpec(c, sel, pcrValues), secret)
  {
    hide Seal, SenderSeed, NameOf, FixedPoint, PutPoint, PolicyPCRDigestSpec, PointOf, UniqueOf, PutSealed, PutSensitive, TPM2B;
    hide Device, ImportAndUnsealSpec, Released, HasAttribute;
    assert c.isOnCurve(c.Public(st.objects[parent].secret.d));
    ImportUnsealFlow(c, st, parent, s, obfuscation, secret, PolicyPCRDigestSpec(c, sel, pcrValues), unsealSel, nonceCaller);
  }

  /**
    What a release comes to: with the sealed-to selection and live values that
    concatenate to the sealed-to ones the secret comes back; with anything else
    it does not, unless one of two explicit pairs of messages collides.
   */
  lemma ReleasedMeans(c: Suite, st: Tpm, sel: seq<PCRSelection>, sealedSel: seq<PCRSelection>, vals: seq<Bytes>, secret: Bytes)
    requires SelectedValues(st.banks, NormalList(sel)).Ok?
    ensures var live := SelectedValues(st.banks, NormalList(sel)).value;
            var r := Released(c, st, sel, PolicyPCRDigestSpec(c, sealedSel, vals), secret);
            && (NormalList(sel) == NormalList(sealedSel) && Concat(live) == Concat(vals) ==> r == Ok(secret))
            && (r.Ok? ==>
                  || (NormalList(sel) == NormalList(sealedSel) && Concat(live) == Concat(vals))
                  || c.ShaCollision(Concat(live), Concat(vals))
                  || c.ShaCollision(SealedMessage(c, sel, live), SealedMessage(c, sealedSel, vals)))
  {
    hide NormalList, SelectedValues, PolicyPCRDigestSpec, PcrMessage;
    var live := SelectedValues(st.banks, NormalList(sel)).value;
    if NormalList(sel) == NormalList(sealedSel) && Concat(live) == Concat(vals) {
      PolicyPCRDigestOfNormal(c, sel, live, sealedSel, vals);
    }
    if PolicyPCRDigestSpec(c, sel, live) == PolicyPCRDigestSpec(c, sealedSel, vals) {
      PolicyPCRDigestBinding(c, sel, live, sealedSel, vals);
    }
  }

  // ---------------------------------------------------------------------
  // Extending a sealed-to PCR
  // ---------------------------------------------------------------------

  predicate SameSizes(v: seq<Bytes>, w: seq<Bytes>) {
    |v| == |w| && forall i :: 0 <= i < |v| ==> |v[i]| == |w[i]|
  }

  lemma {:induction false} ConcatPointwise(v: seq<Bytes>, w: seq<Bytes>)
    requires SameSizes(v, w) && Concat(v) == Concat(w)
    ensures v == w
  {
    if v != [] {
      SplitEqual(v[0], Concat(v[1..]), w[0], Concat(w[1..]));
      ConcatPointwise(v[1..], w[1..]);
    }
  }

  lemma {:induction false} BankValuesOf(bank: seq<Bytes>, other: seq<Bytes>, pcrs: seq<int>)
    requires SameSizes(bank, other)
    ensures SameSizes(BankValues(bank, pcrs), BankValues(other, pcrs)) && |BankValues(bank, pcrs)| == |pcrs|
    ensures BankValues(bank, pcrs) == BankValues(other, pcrs) ==> forall p :: p in pcrs ==> PcrValue(bank, p) == PcrValue(other, p)
  {
    if pcrs != [] {
      var v, w := BankValues(bank, pcrs), BankValues(other, pcrs);
      BankValuesOf(bank, other, pcrs[1..]);
      assert v[0] == PcrValue(bank, pcrs[0]) && w[0] == PcrValue(other, pcrs[0]);
      assert v[1..] == BankValues(bank, pcrs[1..]) && w[1..] == BankValues(other, pcrs[1..]);
    }
  }

  /** Banks that exist alike and hold values of the same sizes. */
  predicate SameShape(banks: map<U16, seq<Bytes>>, other: map<U16, seq<Bytes>>) {
    banks.Keys == other.Keys && forall h :: h in banks ==> SameSizes(banks[h], other[h])
  }

  predicate Selects(sel: seq<PCRSelection>, hash: U16, pcr: int) {
    exists i :: 0 <= i < |sel| && sel[i].hash == hash && pcr in sel[i].pcrs
  }

  /** Equal readings of two states mean equal values in every selected PCR. */
  lemma {:induction false} SelectedValuesOf(banks: map<U16, seq<Bytes>>, other: map<U16, seq<Bytes>>, sel: seq<PCRSelection>, hash: U16, pcr: int)
    requires SameShape(banks, other) && SelectedValues(banks, sel).Ok?
    ensures SelectedValues(other, sel).Ok? && SameSizes(SelectedValues(banks, sel).value, SelectedValues(other, sel).value)
    ensures SelectedValues(banks, sel) == SelectedValues(other, sel) && Selects(sel, hash, pcr) ==>
              hash in banks && PcrValue(banks[hash], pcr) == PcrValue(other[hash], pcr)
  {
    if sel != [] {
      var h := sel[0].hash;
      BankValuesOf(banks[h], other[h], sel[0].pcrs);
      SelectedValuesOf(banks, other, sel[1..], hash, pcr);
      var v, w := BankValues(banks[h], sel[0].pcrs), BankValues(other[h], sel[0].pcrs);
      var vs, ws := SelectedValues(banks, sel[1..]).value, SelectedValues(other, sel[1..]).value;
      hide BankValues, PcrValue;
      if v + vs == w + ws && Selects(sel, hash, pcr) {
        SplitEqual(v, vs, w, ws);
        var i :| 0 <= i < |sel| && sel[i].hash == hash && pcr in sel[i].pcrs;
        if i > 0 {
          assert sel[1..][i - 1] == sel[i];
        }
      }
    }
  }

  lemma ExtendShape(c: Suite, st: Tpm, pcr: U32, hash: U16, digest: Bytes)
    requires DoPcrExtend(c, st, pcr, [PasswordAuth()], hash, digest).Ok?
    requires |c.pcrHash(hash, st.banks[hash][pcr] + digest)| == |st.banks[hash][pcr]|
    ensures var next := DoPcrExtend(c, st, pcr, [PasswordAuth()], hash, digest).value.0;
            && SameShape(st.banks, next.banks)
            && PcrValue(st.banks[hash], pcr) == st.banks[hash][pcr]
            && PcrValue(next.banks[hash], pcr) == c.pcrHash(hash, st.banks[hash][pcr] + digest)
  {
  }

  /**
    Measured boot: once a sealed-to PCR has been extended, what was sealed to the
    values before is no longer released, unless the extend left the PCR as it
    was or SHA-256 collides on messages shown. Digests of one bank have one size.
   */
  lemma ExtendingLocks(c: Suite, st: Tpm, pcr: U32, hash: U16, digest: Bytes, sel: seq<PCRSelection>, secret: Bytes)
    requires DoPcrExtend(c, st, pcr, [PasswordAuth()], hash, digest).Ok?
    requires Selects(NormalList(sel), hash, pcr) && SelectedValues(st.banks, NormalList(sel)).Ok?
    requires |c.pcrHash(hash, st.banks[hash][pcr] + digest)| == |st.banks[hash][pcr]|
    ensures var next := DoPcrExtend(c, st, pcr, [PasswordAuth()], hash, digest).value.0;
            var was := SelectedValues(st.banks, NormalList(sel)).value;
            var now := SelectedValues(next.banks, NormalList(sel));
            Released(c, next, sel, PolicyPCRDigestSpec(c, sel, was), secret).Ok? ==>
              && now.Ok?
              && (|| c.pcrHash(hash, st.banks[hash][pcr] + digest) == st.banks[hash][pcr]
                  || c.ShaCollision(Concat(now.value), Concat(was))
                  || c.ShaCollision(SealedMessage(c, sel, now.value), SealedMessage(c, sel, was)))
  {
    var next := DoPcrExtend(c, st, pcr, [PasswordAuth()], hash, digest).value.0;
    var was := SelectedValues(st.banks, NormalList(sel)).value;
    ExtendShape(c, st, pcr, hash, digest);
    hide NormalList, SelectedValues, PolicyPCRDigestSpec, PcrMessage, Selects, DoPcrExtend, Released, SameShape, PcrValue, Concat;
    SelectedValuesOf(st.banks, next.banks, NormalList(sel), hash, pcr);
    var now := SelectedValues(next.banks, NormalList(sel)).value;
    ReleasedMeans(c, next, sel, sel, was, secret);
    if Concat(now) == Concat(was) {
      ConcatPointwise(was, now);
    }
  }

  // ---------------------------------------------------------------------
  // Sealing on one TPM
  // ---------------------------------------------------------------------

  predicate KeepsObjects(st: Tpm, next: Tpm) {
    forall h :: h in st.objects ==> h in next.objects && next.objects[h] == st.objects[h]
  }

  lemma LoadKeepsObjects(c: Suite, st: Tpm, parent: U32, auths: seq<AuthCommand>, inPrivate: Bytes, inPublic: Bytes)
    requires Inv(c, st) && DoLoad(c, st, parent, auths, inPrivate, inPublic).Ok?
    ensures KeepsObjects(st, DoLoad(c, st, parent, auths, inPrivate, inPublic).value.0)
  {
    hide GoodSession, GoodObject, LoadedObject, ParentKey, BE32, TPM2B, NameOf;
  }

  lemma ExecKeepsObjects(c: Suite, st: Tpm, cmd: Command)
    requires Inv(c, st) && Exec(c, st, cmd).Ok?
    ensures KeepsObjects(st, Exec(c, st, cmd).value.0)
  {
    hide Inv, Fold, StillReads, GoodObject, GoodSession, ParentKey, LoadedObject, ImportedSensitive, TPM2B, BE32, PutSensitive, PutSealed;
    hide Unwrap, ObjectName, Open, NameOf, Attested, PutQuoted, SignatureBy, SelectedValues, DoLoad, DoCreate, PolicyAuthorizes, PasswordAuthorizes;
    hide Extend, ValidQuoted, PutQuoteResponse, PrivateBlob, DigestSize, Require;
    match cmd
    case Load(parent, auths, inPrivate, inPublic) => LoadKeepsObjects(c, st, parent, auths, inPrivate, inPublic);
    case Create(parent, auths, userAuth, data, area) => DrawsOnly(c, st, parent, auths, userAuth, data, area);
    case _ =>
  }

  /** No sequence of command buffers unloads or replaces an object. */
  lemma {:induction false} RunKeepsObjects(c: Suite, st: Tpm, buffers: seq<Bytes>)
    requires Inv(c, st)
    ensures KeepsObjects(st, Run(c, st, buffers))
    decreases |buffers|
  {
    hide Inv, Exec, Decode, Frame;
    if buffers != [] {
      var next := RefStep(c, st, buffers[0]).0;
      StepKeeps(c, st, buffers[0]);
      if Decode(buffers[0]).Ok? && Exec(c, st, Decode(buffers[0]).value).Ok? {
        ExecKeepsObjects(c, st, Decode(buffers[0]).value);
      }
      assert KeepsObjects(st, next);
      RunKeepsObjects(c, next, buffers[1..]);
    }
  }

  lemma CreatedLoads(c: Suite, start: Tpm, parent: U32, secret: Bytes, policy: Digest)
    requires parent in start.objects && start.objects[parent].secret.PrivateKey? && SealableSecret(secret)
    ensures LoadedObject(c, start.objects[parent], CreatedBlob(c, start, parent, secret, policy), CreatedArea(c, start, secret, policy))
            == Ok(Object(CreatedArea(c, start, secret, policy), SEAL_ATTRIBUTES, policy, SealedData(Sensitive([], c.tpmRandom(start.draws), secret))))
  {
    hide PutSealed, PutSensitive, PrivateBlob, LoadedObject, UniqueOf;
    var seedValue := c.tpmRandom(start.draws);
    LoadedHonest(c, start.objects[parent], SealArea(policy).(unique := UniqueOf(c, seedValue, secret)), Sensitive([], seedValue, secret));
  }

  /**
    Seal and unseal end to end: the blobs SealToPCR's Create returns are loaded
    and unsealed by the same TPM after any run of command buffers whatsoever, with
    the same outcome as for a wrapped secret.
   */
  lemma UnsealWithPCRReturnsSecret(c: Suite, start: Tpm, parent: U32, secret: Bytes, sel: seq<PCRSelection>, pcrValues: seq<Bytes>,
                                   buffers: seq<Bytes>, unsealSel: seq<PCRSelection>, nonceCaller: Bytes)
    requires Inv(c, start) && Usable(start, parent) && SealableSecret(secret) && Fits(nonceCaller) && Listable(unsealSel)
    ensures var policy := PolicyPCRDigestSpec(c, sel, pcrValues);
            var (after, created) := CreateSpec(Device(c), start, parent, secret, policy);
            && created.Ok? && Fits(created.value.0) && Fits(created.value.1)
            && var st := Run(c, after, buffers);
               HasRoom(st) ==>
                 UnsealWithPCRSpec(Device(c), st, parent, created.value.0, created.value.1, unsealSel, nonceCaller).1
                 == Released(c, st, unsealSel, policy, secret)
  {
    var policy := PolicyPCRDigestSpec(c, sel, pcrValues);
    var after := start.(draws := start.draws + 1);
    var st := Run(c, after, buffers);
    SameButDraws(c, start);
    hide Inv, CreateSpec, UnsealWithPCRSpec, Released, PolicyPCRDigestSpec, CreatedBlob, CreatedArea, LoadedObject, Run, Device, HasAttribute;
    CreateStep(c, start, parent, secret, policy);
    CreatedLoads(c, start, parent, secret, policy);
    RunKeepsObjects(c, after, buffers);
    assert parent in after.objects && st.objects[parent] == start.objects[parent];
    if HasRoom(st) {
      var area, blob := CreatedArea(c, start, secret, policy), CreatedBlob(c, start, parent, secret, policy);
      LoadUnsealFlow(c, st, parent, blob, area, LoadedObject(c, start.objects[parent], blob, area).value, unsealSel, nonceCaller);
    }
  }

  lemma SameButDraws(c: Suite, st: Tpm)
    requires Inv(c, st)
    ensures Inv(c, st.(draws := st.draws + 1))
  {
    hide Fold, StillReads, GoodObject;
    var next := st.(draws := st.draws + 1);
    assert forall h :: h in st.sessions ==> GoodSession(c, next, st.sessions[h]);
  }

  // ---------------------------------------------------------------------
  // Client flows are runs
  // ---------------------------------------------------------------------

  /** A command issued to the reference TPM has the effect of its one buffer. */
  lemma IssueIsStep(c: Suite, st: Tpm, tag: U16, cc: U32, body: Bytes)
    ensures Issue(Device(c), st, tag, cc, body).0 == RefStep(c, st, Frame(tag, cc, body)).0
  {
    var buffer := Frame(tag, cc, body);
    var step := Device(c);
    RefReply(c, st, buffer);
    hide Frame, ParseFrame, RefStep, Outcome, IsRetry;
    assert After(step, st, buffer, 0) == st;
    assert ReplyAt(step, st, buffer, 0) == RefStep(c, st, buffer).1;
    assert After(step, st, buffer, 1) == RefStep(c, st, buffer).0;
    FirstReplyDecides(step, st, buffer);
  }

  lemma IssueKeeps(c: Suite, st: Tpm, tag: U16, cc: U32, body: Bytes)
    requires Inv(c, st)
    ensures Inv(c, Issue(Device(c), st, tag, cc, body).0)
  {
    hide Inv, Issue, RefStep, Frame;
    IssueIsStep(c, st, tag, cc, body);
    StepKeeps(c, st, Frame(tag, cc, body));
  }

  /** So a whole client flow keeps the invariant, whatever its arguments and wherever it stops. */
  lemma UnsealWithPCRKeeps(c: Suite, st: Tpm, parent: U32, priv: Bytes, pub: Bytes, sel: seq<PCRSelection>, nonceCaller: Bytes)
    requires Inv(c, st) && Fits(priv) && Fits(pub) && Fits(nonceCaller)
    ensures Inv(c, UnsealWithPCRSpec(Device(c), st, parent, priv, pub, sel, nonceCaller).0)
  {
    hide Inv, Issue, Device, LoadBody, StartAuthSessionBody, PolicyPCRBody, UnsealBody, StartResult, LoadResult, NoResult, SizedResult;
    IssueKeeps(c, st, TAG_SESSIONS, CC_LOAD, LoadBody(parent, priv, pub));
    var (s1, item) := LoadSpec(Device(c), st, parent, priv, pub);
    IssueKeeps(c, s1, TAG_NO_SESSIONS, CC_START_AUTH_SESSION, StartAuthSessionBody(nonceCaller));
    var (s2, session) := StartAuthSessionSpec(Device(c), s1, nonceCaller);
    if item.Ok? && session.Ok? {
      IssueKeeps(c, s2, TAG_NO_SESSIONS, CC_POLICY_PCR, PolicyPCRBody(session.value.0, sel));
      var (s3, _) := PolicyPCRSpec(Device(c), s2, session.value.0, sel);
      IssueKeeps(c, s3, TAG_SESSIONS, CC_UNSEAL, UnsealBody(item.value, session.value.0));
    }
  }

  lemma ImportAndUnsealKeeps(c: Suite, st: Tpm, parent: U32, objectPublic: Bytes, duplicate: Bytes, inSymSeed: Bytes,
                             sel: seq<PCRSelection>, nonceCaller: Bytes)
    requires Inv(c, st) && Fits(objectPublic) && Fits(nonceCaller)
    ensures Inv(c, ImportAndUnsealSpec(Device(c), st, parent, objectPublic, duplicate, inSymSeed, sel, nonceCaller).0)
  {
    hide Inv, Issue, Device, ImportBody, SizedResult, UnsealWithPCRSpec;
    IssueKeeps(c, st, TAG_SESSIONS, CC_IMPORT, ImportBody(parent, objectPublic, duplicate, inSymSeed));
    var (s1, outPrivate) := ImportSpec(Device(c), st, parent, objectPublic, duplicate, inSymSeed);
    if outPrivate.Ok? {
      UnsealWithPCRKeeps(c, s1, parent, outPrivate.value, objectPublic, sel, nonceCaller);
    }
  }

  // ---------------------------------------------------------------------
  // Quote to verify
  // ---------------------------------------------------------------------

  /** A request whose attest fits in a TPM2B. */
  predicate Quotable(qualifyingData: Bytes, sel: seq<PCRSelection>) {
    107 + |qualifyingData| + 6 * |sel| <= 0xFFFF
  }

  /** The message the TPM signs for this request. */
  function QuoteMessage(c: Suite, st: Tpm, ak: Object, qualifyingData: Bytes, sel: seq<PCRSelection>, live: seq<Bytes>): (m: Bytes)
    requires Quotable(qualifyingData, sel)
    ensures Fits(m)
  {
    PutQuoted(Attested(c, st, ak, qualifyingData, NormalList(sel), Concat(live)), [])
  }

  lemma QuoteStep(c: Suite, st: Tpm, key: U32, qualifyingData: Bytes, sel: seq<PCRSelection>)
    requires Usable(st, key) && Quotable(qualifyingData, sel)
    ensures var read := SelectedValues(st.banks, NormalList(sel));
            var ak := st.objects[key];
            QuoteSpec(Device(c), st, key, qualifyingData, sel)
            == if read.Err? then (st, Err(TpmError(CC_QUOTE, RC_HASH)))
               else
                 var m := QuoteMessage(c, st, ak, qualifyingData, sel, read.value);
                 (st, Ok((m, SignatureBy(c, ak.secret.d, m))))
  {
    hide Issue, Device, QuoteBody, DecodeBody, SelectedValues, NormalList, HasAttribute, PutQuoted, SignatureBy, PutQuoteResponse, ParseQuoteResponse, NameOf;
    var ak, body := st.objects[key], QuoteBody(key, qualifyingData, sel);
    var cmd := Command.Quote(key, [PasswordAuth()], qualifyingData, NormalList(sel));
    DecodeQuoteBody(key, qualifyingData, sel);
    OnlyBanksMissing(st.banks, NormalList(sel));
    var read := SelectedValues(st.banks, NormalList(sel));
    if read.Ok? {
      var m := QuoteMessage(c, st, ak, qualifyingData, sel, read.value);
      Accepted(c, st, TAG_SESSIONS, CC_QUOTE, body, cmd, st, PutQuoteResponse(0, m, SignatureBy(c, ak.secret.d, m)));
      ParseQuoteResponsePut(0, m, SignatureBy(c, ak.secret.d, m));
    } else {
      Rejected(c, st, TAG_SESSIONS, CC_QUOTE, body, cmd, RC_HASH);
    }
  }

  lemma NormalTwice(sel: seq<PCRSelection>)
    ensures NormalList(NormalList(sel)) == NormalList(sel)
  {
    MarshalNormal(sel);
    MarshalListInjective(NormalList(sel), sel);
    hide *;
  }

  /**
    Quote to verify end to end: for every nonce, selection and PCR state, the
    quote the TPM returns verifies under the AK's point exactly when the expected
    values hash to the digest of the live ones, and then reports the nonce and the
    selection's normal form.
   */
  lemma QuoteVerifies(c: Suite, st: Tpm, key: U32, ak: EccPoint, qualifyingData: Bytes, sel: seq<PCRSelection>, expected: seq<Bytes>)
    requires c.Lawful() && c.LawfulSignatures() && Usable(st, key) && Quotable(qualifyingData, sel)
    requires c.IsScalar(st.objects[key].secret.d) && PointOf(ak) == c.Public(st.objects[key].secret.d)
    requires SelectedValues(st.banks, NormalList(sel)).Ok?
    ensures var live := SelectedValues(st.banks, NormalList(sel)).value;
            var r := QuoteSpec(Device(c), st, key, qualifyingData, sel).1;
            && r.Ok?
            && VerifyQuoteSpec(c, ak, r.value.0, r.value.1, expected)
               == if c.Sha(Concat(expected)) == c.Sha(Concat(live)) then Ok(AttestInfo(qualifyingData, NormalList(sel), c.Sha(Concat(live))))
                  else Err(PcrDigestMismatch)
  {
    hide QuoteSpec, VerifyQuoteSpec, PutQuoted, SignatureBy, PointOf, SelectedValues, NormalList, Device, HasAttribute, NameOf;
    var live := SelectedValues(st.banks, NormalList(sel)).value;
    QuoteStep(c, st, key, qualifyingData, sel);
    NormalTwice(sel);
    SignedQuoteVerifies(c, st.objects[key].secret.d, ak, Attested(c, st, st.objects[key], qualifyingData, NormalList(sel), Concat(live)), expected);
  }

  // ---------------------------------------------------------------------
  // Activation
  // ---------------------------------------------------------------------

  /** The AK allows the empty password; the EK is a key under the endorsement policy. */
  predicate ActivationReady(c: Suite, st: Tpm, ak: U32, ek: U32) {
    && ak in st.objects && ek in st.objects
    && PasswordAuthorizes(st.objects[ak], PasswordAuth())
    && st.objects[ek].secret.PrivateKey? && c.IsScalar(st.objects[ek].secret.d)
    && st.objects[ek].authPolicy == EndorsementPolicy(c)
  }

  /** What the EK holder gets out of the blobs for the AK it holds. */
  function Recovered(c: Suite, akArea: Bytes, d: nat, blob: Bytes, secret: Bytes): (r: Result<Bytes>)
    ensures r.Ok? ==> |r.value| <= |blob|
  {
    var name :- ObjectName(c, akArea);
    Unwrap(c, LABEL_IDENTITY, d, name, blob, secret)
  }

  lemma ActivateExec(c: Suite, st: Tpm, ak: U32, ek: U32, h: U32, blob: Bytes, secret: Bytes)
    requires ActivationReady(c, st, ak, ek) && Fits(blob)
    requires h != RS_PW && h in st.sessions && st.sessions[h].policyDigest == EndorsementPolicy(c) && st.sessions[h].pcrCounter.None?
    ensures var got := Recovered(c, st.objects[ak].area, st.objects[ek].secret.d, blob, secret);
            DoActivateCredential(c, st, ak, ek, [PasswordAuth(), PolicyAuth(h)], blob, secret)
            == if got.Err? then Err(got.error) else Ok((SessionUsed(st, PolicyAuth(h)), BE32(0) + (TPM2B(got.value) + [])))
  {
    hide ObjectName, Unwrap, PasswordAuthorizes, TPM2B, BE32, EndorsementPolicy, SessionUsed;
  }

  lemma ActivateStep(c: Suite, st: Tpm, ak: U32, ek: U32, h: U32, blob: Bytes, secret: Bytes)
    requires ActivationReady(c, st, ak, ek) && Fits(blob) && Fits(secret)
    requires h != RS_PW && h in st.sessions && st.sessions[h].policyDigest == EndorsementPolicy(c) && st.sessions[h].pcrCounter.None?
    ensures ActivateCredentialSpec(Device(c), st, ak, ek, h, TPM2B(blob), TPM2B(secret)).1
            == match Recovered(c, st.objects[ak].area, st.objects[ek].secret.d, blob, secret)
               case Ok(credential) => Ok(credential)
               case Err(e) => Err(TpmError(CC_ACTIVATE_CREDENTIAL, CodeFor(e)))
  {
    hide Issue, Device, ActivateCredentialBody, DecodeBody, DoActivateCredential, Recovered, TPM2B, BE32, ParseSized, CodeFor, EndorsementPolicy, PasswordAuthorizes;
    DecodeActivateCredentialBody(ak, ek, h, blob, secret);
    ActivateExec(c, st, ak, ek, h, blob, secret);
    IssueOnce(c, st, TAG_SESSIONS, CC_ACTIVATE_CREDENTIAL, ActivateCredentialBody(ak, ek, h, TPM2B(blob), TPM2B(secret)));
    var got := Recovered(c, st.objects[ak].area, st.objects[ek].secret.d, blob, secret);
    if got.Ok? {
      SizedResultPut(0, got.value, []);
    }
  }

  lemma ActivateFlow(c: Suite, st: Tpm, ak: U32, ek: U32, blob: Bytes, secret: Bytes, nonceCaller: Bytes)
    requires ActivationReady(c, st, ak, ek) && Fits(blob) && Fits(secret) && Fits(nonceCaller) && st.sessionCount < HANDLE_SPACE
    ensures ActivateFlowSpec(Device(c), st, ak, ek, Blobs(TPM2B(blob), TPM2B(secret)), nonceCaller).1
            == match Recovered(c, st.objects[ak].area, st.objects[ek].secret.d, blob, secret)
               case Ok(credential) => Ok(credential)
               case Err(e) => Err(TpmError(CC_ACTIVATE_CREDENTIAL, CodeFor(e)))
  {
    hide StartAuthSessionSpec, PolicySecretSpec, ActivateCredentialSpec, Device, Recovered, CodeFor, EndorsementPolicy, PasswordAuthorizes, TPM2B;
    var h, started := SessionHandle(st), WithSession(st);
    StartStep(c, st, nonceCaller);
    PolicySecretStep(c, started, h);
    ActivateStep(c, WithEndorsedSession(c, started, h), ak, ek, h, blob, secret);
  }

  /** The three buffers of an activation, in the order the flow sends them. */
  function ActivationBuffers(st: Tpm, ak: U32, ek: U32, mc: Blobs, nonceCaller: Bytes): seq<Bytes>
    requires st.sessionCount < HANDLE_SPACE && Fits(nonceCaller)
  {
    var h := SessionHandle(st);
    [Frame(TAG_NO_SESSIONS, CC_START_AUTH_SESSION, StartAuthSessionBody(nonceCaller)),
     Frame(TAG_SESSIONS, CC_POLICY_SECRET, PolicySecretBody(RH_ENDORSEMENT, h)),
     Frame(TAG_SESSIONS, CC_ACTIVATE_CREDENTIAL, ActivateCredentialBody(ak, ek, h, mc.wrapped, mc.secret))]
  }

  lemma RunThree(c: Suite, st: Tpm, a: Bytes, b: Bytes, d: Bytes)
    ensures Run(c, st, [a, b, d]) == RefStep(c, RefStep(c, RefStep(c, st, a).0, b).0, d).0
  {
    hide RefStep;
    assert [a, b, d][1..] == [b, d] && [b, d][1..] == [d] && [d][1..] == [];
    var s1 := RefStep(c, st, a).0;
    var s2 := RefStep(c, s1, b).0;
    var s3 := RefStep(c, s2, d).0;
    assert Run(c, s3, []) == s3;
    assert Run(c, s2, [d]) == s3;
    assert Run(c, s1, [b, d]) == s3;
  }

  /** StartAuthSession, PolicySecret, ActivateCredential: the flow's effect is the run of exactly these buffers. */
  lemma ActivationRuns(c: Suite, st: Tpm, ak: U32, ek: U32, mc: Blobs, nonceCaller: Bytes)
    requires st.sessionCount < HANDLE_SPACE && Fits(nonceCaller)
    ensures ActivateFlowSpec(Device(c), st, ak, ek, mc, nonceCaller).0 == Run(c, st, ActivationBuffers(st, ak, ek, mc, nonceCaller))
  {
    var h, started := SessionHandle(st), WithSession(st);
    var endorsed := WithEndorsedSession(c, started, h);
    StartStep(c, st, nonceCaller);
    PolicySecretStep(c, started, h);
    hide Issue, Device, StartAuthSessionBody, PolicySecretBody, ActivateCredentialBody, RefStep, Run, Frame, WithEndorsedSession, WithSession, StartResult, NoResult, SizedResult;
    IssueIsStep(c, st, TAG_NO_SESSIONS, CC_START_AUTH_SESSION, StartAuthSessionBody(nonceCaller));
    IssueIsStep(c, started, TAG_SESSIONS, CC_POLICY_SECRET, PolicySecretBody(RH_ENDORSEMENT, h));
    IssueIsStep(c, endorsed, TAG_SESSIONS, CC_ACTIVATE_CREDENTIAL, ActivateCredentialBody(ak, ek, h, mc.wrapped, mc.secret));
    var buffers := ActivationBuffers(st, ak, ek, mc, nonceCaller);
    RunThree(c, st, buffers[0], buffers[1], buffers[2]);
  }

  /**
    Activation end to end. On a TPM holding the EK scalar under the endorsement
    policy and the AK named by akPublic, ActivateAKWithEK returns the credential;
    if it succeeds with another AK loaded, SHA-256 or HMAC collides on the
    messages shown.
   */
  lemma ActivationReturnsCredential(c: Suite, st: Tpm, ak: U32, ek: U32, akPublic: Bytes, ekPublic: Bytes, s: nat, credential: Bytes, nonceCaller: Bytes)
    requires c.Lawful() && c.IsScalar(s) && ActivationReady(c, st, ak, ek) && st.sessionCount < HANDLE_SPACE
    requires ObjectName(c, akPublic).Ok? && PointIn(ekPublic).Ok?
    requires PointOf(PointIn(ekPublic).value) == c.Public(st.objects[ek].secret.d)
    requires Wrappable(credential) && Fits(nonceCaller)
    ensures var r := ActivateAKWithEKSpec(Device(c), st, c, ak, ek, akPublic, ekPublic, credential, nonceCaller, Some(s)).1;
            var area, seed := st.objects[ak].area, SenderSeed(c, LABEL_IDENTITY, s, c.Public(st.objects[ek].secret.d));
            var enc := Encipher(c, seed, NameOf(c, akPublic), credential);
            && (area == akPublic ==> r == Ok(credential))
            && (r.Ok? ==>
                  || area == akPublic
                  || c.ShaCollision(akPublic, area)
                  || c.MacCollision(IntegrityKey(c, seed), enc + NameOf(c, akPublic), enc + NameOf(c, area)))
  {
    var d, area, name := st.objects[ek].secret.d, st.objects[ak].area, NameOf(c, akPublic);
    var seed := SenderSeed(c, LABEL_IDENTITY, s, c.Public(d));
    var blob, point := Seal(c, seed, name, credential), PutPoint(FixedPoint(c.Public(s)), []);
    hide MadeCredential, ActivateFlowSpec, Device, Recovered, CodeFor, EndorsementPolicy, PasswordAuthorizes, TPM2B, ObjectName;
    hide Seal, SenderSeed, PointOf, PointIn, FixedPoint, PutPoint, Encipher, IntegrityKey, NameOf, Suite.Lawful;
    MadeFor(c, akPublic, ekPublic, d, s, credential);
    ActivateFlow(c, st, ak, ek, blob, point, nonceCaller);
    RecoveredForName(c, akPublic, area, d, s, credential);
  }

  lemma MadeFor(c: Suite, akPublic: Bytes, ekPublic: Bytes, d: nat, s: nat, credential: Bytes)
    requires c.Lawful() && c.IsScalar(d) && ObjectName(c, akPublic).Ok? && PointIn(ekPublic).Ok? && Wrappable(credential)
    requires PointOf(PointIn(ekPublic).value) == c.Public(d)
    ensures MadeCredential(c, akPublic, ekPublic, credential, Some(s))
            == Ok(Blobs(TPM2B(Seal(c, SenderSeed(c, LABEL_IDENTITY, s, c.Public(d)), NameOf(c, akPublic), credential)),
                        TPM2B(PutPoint(FixedPoint(c.Public(s)), []))))
  {
    hide Seal, SenderSeed, PointOf, PointIn, FixedPoint, PutPoint, NameOf, TPM2B;
  }

  lemma RecoveredIs(c: Suite, area: Bytes, d: nat, s: nat, blob: Bytes)
    requires c.Lawful() && c.IsScalar(d) && c.IsScalar(s)
    ensures Recovered(c, area, d, blob, PutPoint(FixedPoint(c.Public(s)), []))
            == if ObjectName(c, area).Ok? then Open(c, SenderSeed(c, LABEL_IDENTITY, s, c.Public(d)), NameOf(c, area), blob)
               else Err(ObjectName(c, area).error)
  {
    hide SenderSeed, FixedPoint, PutPoint, NameOf, Unwrap, Open, Suite.Lawful;
    UnwrapReaches(c, LABEL_IDENTITY, s, d, NameOf(c, area), blob);
  }

  lemma RecoveredForName(c: Suite, akPublic: Bytes, area: Bytes, d: nat, s: nat, credential: Bytes)
    requires c.Lawful() && c.IsScalar(d) && c.IsScalar(s) && Wrappable(credential) && ObjectName(c, akPublic).Ok?
    ensures var seed := SenderSeed(c, LABEL_IDENTITY, s, c.Public(d));
            var enc := Encipher(c, seed, NameOf(c, akPublic), credential);
            var r := Recovered(c, area, d, Seal(c, seed, NameOf(c, akPublic), credential), PutPoint(FixedPoint(c.Public(s)), []));
            && (area == akPublic ==> r == Ok(credential))
            && (r.Ok? ==>
                  || area == akPublic
                  || c.ShaCollision(akPublic, area)
                  || c.MacCollision(IntegrityKey(c, seed), enc + NameOf(c, akPublic), enc + NameOf(c, area)))
  {
    var seed, name := SenderSeed(c, LABEL_IDENTITY, s, c.Public(d)), NameOf(c, akPublic);
    var blob := Seal(c, seed, name, credential);
    hide *;
    RecoveredIs(c, akPublic, d, s, blob);
    RecoveredIs(c, area, d, s, blob);
    OpenSeal(c, seed, name, credential);
    if Recovered(c, area, d, blob, PutPoint(FixedPoint(c.Public(s)), [])).Ok? {
      SealNamesOne(c, seed, name, credential, NameOf(c, area));
      if NameOf(c, area) == name {
        NameBinding(c, akPublic, area);
      }
    }
  }

  // ---------------------------------------------------------------------
  // The hypotheses can be met
  // ---------------------------------------------------------------------

  /** A TPM with one key that is storage key and AK, and one under the endorsement policy. */
  function TwoKeys(c: Suite): Tpm {
    var key := Object([0, 0, 0, 11], USER_WITH_AUTH, [], PrivateKey(1, []));
    var ek := Object([], 0, EndorsementPolicy(c), PrivateKey(1, []));
    Tpm(map[ALG_SHA256 := [Zeros(32)]], 0, map[TRANSIENT_BASE := key, TRANSIENT_BASE + 1 := ek], map[], 2, 0, 0)
  }

  /** What the end-to-end theorems ask of the curve, the keys and the TPM. */
  ghost predicate Ready(c: Suite, st: Tpm, key: U32, ek: U32, point: EccPoint) {
    && c.Lawful() && c.LawfulSignatures() && Inv(c, st) && HasRoom(st)
    && Usable(st, key) && c.IsScalar(st.objects[key].secret.d) && PointOf(point) == c.Public(st.objects[key].secret.d)
    && ActivationReady(c, st, key, ek) && ObjectName(c, st.objects[key].area).Ok?
  }

  lemma TwoKeysReady(c: Suite)
    requires c.IsScalar(1)
    ensures var st := TwoKeys(c);
            && Inv(c, st) && HasRoom(st) && Usable(st, TRANSIENT_BASE) && ActivationReady(c, st, TRANSIENT_BASE, TRANSIENT_BASE + 1)
            && ObjectName(c, st.objects[TRANSIENT_BASE].area).Ok?
  {
    assert HasAttribute(USER_WITH_AUTH, USER_WITH_AUTH);
    hide EndorsementPolicy, NameOf, HasAttribute, Zeros, Inv;
    FreshTpm(c, TwoKeys(c));
  }

  /** One suite and one TPM satisfy all of it at once. */
  lemma ReadyTpmExists()
    ensures exists c: Suite, st: Tpm, key: U32, ek: U32, point: EccPoint :: Ready(c, st, key, ek, point)
  {
    var g := Point(0, 0);
    var c := ToySuite(g, Zeros(32), Zeros(16));
    assert PointOf(EccPoint([], [])) == c.Public(1) == g && c.IsScalar(1);
    hide Inv, Usable, ActivationReady, ObjectName, PointOf;
    ToyIsLawful(g, Zeros(32), Zeros(16));
    hide Suite.Lawful, Suite.LawfulSignatures, ToySuite;
    TwoKeysReady(c);
    assert Ready(c, TwoKeys(c), TRANSIENT_BASE, TRANSIENT_BASE + 1, EccPoint([], []));
  }
}
