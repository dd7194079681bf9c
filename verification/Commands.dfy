/**
  Command framing: the bodies the client emits (handle area, authorization area,
  parameters) and the TPM-side decoder that inverts them (activate.go, seal.go,
  import.go, attest.go, commands.go).
 */
module Commands {
  import opened Wire
  import opened Pcr
  import opened PublicArea
  import opened Policy
  import opened Transport

  const CC_ACTIVATE_CREDENTIAL: U32 := 0x147
  const CC_CREATE: U32 := 0x153
  const CC_IMPORT: U32 := 0x156
  const CC_LOAD: U32 := 0x157
  const CC_QUOTE: U32 := 0x158
  const CC_UNSEAL: U32 := 0x15E
  const CC_START_AUTH_SESSION: U32 := 0x176
  const CC_GET_CAPABILITY: U32 := 0x17A
  const CC_PCR_READ: U32 := 0x17E
  const CC_PCR_EXTEND: U32 := 0x182

  const RS_PW: U32 := 0x4000_0009
  const RH_NULL: U32 := 0x4000_0007
  const RH_ENDORSEMENT: U32 := 0x4000_000B
  const SE_POLICY: byte := 1
  const CONTINUE_SESSION: byte := 1

  // ---------------------------------------------------------------------
  // Authorization area
  // ---------------------------------------------------------------------

  /** TPMS_AUTH_COMMAND. */
  datatype AuthCommand = AuthCommand(handle: U32, nonce: Bytes, attributes: byte, hmac: Bytes)

  function PutAuth(a: AuthCommand): (b: Bytes)
    requires Fits(a.nonce) && Fits(a.hmac)
    ensures |b| == 9 + |a.nonce| + |a.hmac|
  {
    BE32(a.handle) + (TPM2B(a.nonce) + ([a.attributes] + TPM2B(a.hmac)))
  }

  /** The password session over an empty authValue. */
  function PasswordAuth(): AuthCommand {
    AuthCommand(RS_PW, [], CONTINUE_SESSION, [])
  }

  /** A policy session standing in for an HMAC. */
  function PolicyAuth(session: U32): AuthCommand {
    AuthCommand(session, [], CONTINUE_SESSION, [])
  }

  function MarshalPasswordAuth(): (b: Bytes)
    ensures |b| == 9
  {
    PutAuth(PasswordAuth())
  }

  function MarshalPolicyAuth(session: U32): (b: Bytes)
    ensures |b| == 9
  {
    PutAuth(PolicyAuth(session))
  }

  /** A buffer length converted to uint32. */
  function Size(b: Bytes): (n: U32)
    ensures |b| < 0x1_0000_0000 ==> n == |b|
  {
    |b| % 0x1_0000_0000
  }

  /** authorizationSize, then the sessions in handle order. */
  function AuthArea(sessions: seq<Bytes>): Bytes {
    BE32(Size(Concat(sessions))) + Concat(sessions)
  }

  method MarshalAuthArea(sessions: seq<Bytes>) returns (out: Bytes)
    ensures out == AuthArea(sessions)
  {
    var joined: Bytes := [];
    for i := 0 to |sessions|
      invariant joined == Concat(sessions[..i])
    {
      ConcatAppend(sessions[..i], sessions[i]);
      assert sessions[..i + 1] == sessions[..i] + [sessions[i]];
      joined := joined + sessions[i];
    }
    assert sessions[..|sessions|] == sessions;
    out := BE32(Size(joined));
    out := out + joined;
  }

  function TakeAuth(b: Bytes): (r: Result<(AuthCommand, Bytes)>)
    ensures r.Ok? ==> |r.value.1| < |b|
  {
    var (handle, b1) :- TakeU32(b);
    var (nonce, b2) :- UnmarshalTPM2B(b1);
    var (attributes, b3) :- TakeU8(b2);
    var (hmac, b4) :- UnmarshalTPM2B(b3);
    Ok((AuthCommand(handle, nonce, attributes, hmac), b4))
  }

  function TakeAuths(b: Bytes): Result<seq<AuthCommand>>
    decreases |b|
  {
    if b == [] then Ok([])
    else
      var (a, rest) :- TakeAuth(b);
      var more :- TakeAuths(rest);
      Ok([a] + more)
  }

  function TakeAuthArea(b: Bytes): Result<(seq<AuthCommand>, Bytes)> {
    var (size, b1) :- TakeU32(b);
    if |b1| < size then Err(ShortBuffer)
    else
      var auths :- TakeAuths(b1[..size]);
      Ok((auths, b1[size..]))
  }

  lemma TakeAuthPut(a: AuthCommand, tail: Bytes)
    requires Fits(a.nonce) && Fits(a.hmac)
    ensures TakeAuth(PutAuth(a) + tail) == Ok((a, tail))
  {
    var b3 := TPM2B(a.hmac) + tail;
    var b2 := [a.attributes] + b3;
    var b1 := TPM2B(a.nonce) + b2;
    assert PutAuth(a) + tail == BE32(a.handle) + b1;
    TakeU32Put(a.handle, b1);
    UnmarshalMarshal(a.nonce, b2);
    assert TakeU8(b2) == Ok((a.attributes, b3));
    UnmarshalMarshal(a.hmac, tail);
    hide BE32, TakeU32, TPM2B, UnmarshalTPM2B, PutAuth, TakeU8;
  }

  predicate AllAuthsFit(auths: seq<AuthCommand>) {
    forall a :: a in auths ==> Fits(a.nonce) && Fits(a.hmac)
  }

  function PutAuths(auths: seq<AuthCommand>): (b: seq<Bytes>)
    requires AllAuthsFit(auths)
    ensures |b| == |auths|
  {
    if auths == [] then [] else [PutAuth(auths[0])] + PutAuths(auths[1..])
  }

  lemma {:induction false} TakeAuthsPut(auths: seq<AuthCommand>)
    requires AllAuthsFit(auths)
    ensures TakeAuths(Concat(PutAuths(auths))) == Ok(auths)
  {
    if auths == [] {
      assert TakeAuths([]) == Ok([]);
    } else {
      var a, rest := auths[0], Concat(PutAuths(auths[1..]));
      TakeAuthPut(a, rest);
      TakeAuthsPut(auths[1..]);
      assert Concat(PutAuths(auths)) == PutAuth(a) + rest;
      assert [a] + auths[1..] == auths;
      hide TakeAuth, PutAuth;
    }
  }

  /** Any list of sessions is read back in order, whatever parameters follow. */
  lemma TakeAuthAreaPut(auths: seq<AuthCommand>, tail: Bytes)
    requires AllAuthsFit(auths) && |Concat(PutAuths(auths))| < 0x1_0000_0000
    ensures TakeAuthArea(AuthArea(PutAuths(auths)) + tail) == Ok((auths, tail))
  {
    hide BE32, PutAuths, Concat, TakeAuthArea, TakeAuths, Size;
    var joined := Concat(PutAuths(auths));
    TakeAuthsPut(auths);
    TakeSizedAuths(joined, auths, tail);
    Reassociate(BE32(|joined|), joined, tail);
  }

  lemma TakeSizedAuths(joined: Bytes, auths: seq<AuthCommand>, tail: Bytes)
    requires |joined| < 0x1_0000_0000 && TakeAuths(joined) == Ok(auths)
    ensures TakeAuthArea(BE32(|joined|) + (joined + tail)) == Ok((auths, tail))
  {
    hide BE32, TakeU32, TakeAuths;
    TakeU32Put(|joined|, joined + tail);
    assert (joined + tail)[..|joined|] == joined && (joined + tail)[|joined|..] == tail;
  }

  /** The one-session and two-session areas the client emits. */
  function OneAuth(a: AuthCommand, tail: Bytes): (b: Bytes)
    requires Fits(a.nonce) && Fits(a.hmac)
    ensures |b| == 13 + |a.nonce| + |a.hmac| + |tail|
  {
    BE32(Size(PutAuth(a))) + (PutAuth(a) + tail)
  }

  lemma TakeOneAuth(a: AuthCommand, tail: Bytes)
    requires Fits(a.nonce) && Fits(a.hmac)
    ensures TakeAuthArea(OneAuth(a, tail)) == Ok(([a], tail))
  {
    hide TakeAuthArea, BE32, PutAuth, Size;
    assert PutAuths([a]) == [PutAuth(a)];
    assert Concat([PutAuth(a)]) == PutAuth(a);
    TakeAuthAreaPut([a], tail);
    Reassociate(BE32(Size(PutAuth(a))), PutAuth(a), tail);
  }

  lemma TakeTwoAuths(a: AuthCommand, b: AuthCommand, tail: Bytes)
    requires Fits(a.nonce) && Fits(a.hmac) && Fits(b.nonce) && Fits(b.hmac)
    ensures TakeAuthArea(AuthArea([PutAuth(a), PutAuth(b)]) + tail) == Ok(([a, b], tail))
  {
    hide TakeAuthArea, BE32, PutAuth;
    assert PutAuths([b]) == [PutAuth(b)] && PutAuths([a, b]) == [PutAuth(a)] + PutAuths([b]);
    assert Concat([PutAuth(b)]) == PutAuth(b);
    assert Concat([PutAuth(a), PutAuth(b)]) == PutAuth(a) + Concat([PutAuth(b)]);
    TakeAuthAreaPut([a, b], tail);
  }

  // ---------------------------------------------------------------------
  // Bodies
  // ---------------------------------------------------------------------

  function PCRExtendBody(pcr: U32, hash: U16, digest: Bytes): (b: Bytes)
    ensures |b| == 23 + |digest|
  {
    BE32(pcr) + OneAuth(PasswordAuth(), BE32(1) + (BE16(hash) + digest))
  }

  function MarshalSealSensitiveCreate(secret: Bytes): (b: Bytes)
    requires |secret| + 4 <= 0xFFFF
    ensures |b| == 6 + |secret|
  {
    TPM2B(BE16(0) + TPM2B(secret))
  }

  function CreateBody(parent: U32, secret: Bytes, area: Bytes): (b: Bytes)
    requires |secret| + 4 <= 0xFFFF && Fits(area)
    ensures |b| == 31 + |secret| + |area|
  {
    BE32(parent) + OneAuth(PasswordAuth(), MarshalSealSensitiveCreate(secret) + (TPM2B(area) + (BE16(0) + BE32(0))))
  }

  function LoadBody(parent: U32, priv: Bytes, pub: Bytes): (b: Bytes)
    requires Fits(priv) && Fits(pub)
    ensures |b| == 21 + |priv| + |pub|
  {
    BE32(parent) + OneAuth(PasswordAuth(), TPM2B(priv) + (TPM2B(pub) + []))
  }

  /** `duplicate` and `inSymSeed` go on the wire verbatim: they are already size-prefixed. */
  function ImportBody(parent: U32, objectPublic: Bytes, duplicate: Bytes, inSymSeed: Bytes): (b: Bytes)
    requires Fits(objectPublic)
    ensures |b| == 23 + |objectPublic| + |duplicate| + |inSymSeed|
  {
    BE32(parent) + OneAuth(PasswordAuth(), BE16(0) + (TPM2B(objectPublic) + (duplicate + (inSymSeed + (BE16(ALG_NULL) + [])))))
  }

  function StartAuthSessionBody(nonceCaller: Bytes): (b: Bytes)
    requires Fits(nonceCaller)
    ensures |b| == 17 + |nonceCaller|
  {
    BE32(RH_NULL) + (BE32(RH_NULL) + (TPM2B(nonceCaller) + (BE16(0) + ([SE_POLICY] + (BE16(ALG_NULL) + (BE16(ALG_SHA256) + []))))))
  }

  function PolicyPCRBody(session: U32, sel: seq<PCRSelection>): (b: Bytes)
    ensures |b| == 10 + 6 * |sel|
  {
    BE32(session) + (BE16(0) + (MarshalList(sel) + []))
  }

  function PolicySecretBody(authHandle: U32, session: U32): (b: Bytes)
    ensures |b| == 31
  {
    BE32(authHandle) + (BE32(session) + OneAuth(PasswordAuth(), BE16(0) + (BE16(0) + (BE16(0) + (BE32(0) + [])))))
  }

  function UnsealBody(item: U32, session: U32): (b: Bytes)
    ensures |b| == 17
  {
    BE32(item) + OneAuth(PolicyAuth(session), [])
  }

  function ActivateCredentialBody(activate: U32, key: U32, session: U32, credentialBlob: Bytes, secret: Bytes): (b: Bytes)
    ensures |b| == 30 + |credentialBlob| + |secret|
  {
    assert Concat([MarshalPolicyAuth(session)]) == MarshalPolicyAuth(session);
    assert Concat([MarshalPasswordAuth(), MarshalPolicyAuth(session)]) == MarshalPasswordAuth() + Concat([MarshalPolicyAuth(session)]);
    BE32(activate) + (BE32(key) + (AuthArea([MarshalPasswordAuth(), MarshalPolicyAuth(session)]) + (credentialBlob + (secret + []))))
  }

  function QuoteBody(key: U32, qualifyingData: Bytes, sel: seq<PCRSelection>): (b: Bytes)
    requires Fits(qualifyingData)
    ensures |b| == 25 + |qualifyingData| + 6 * |sel|
  {
    BE32(key) + OneAuth(PasswordAuth(), TPM2B(qualifyingData) + (BE16(ALG_NULL) + (MarshalList(sel) + [])))
  }

  // ---------------------------------------------------------------------
  // The TPM-side decoder
  // ---------------------------------------------------------------------

  datatype Command =
    | PcrExtend(pcr: U32, auths: seq<AuthCommand>, hash: U16, digest: Bytes)
    | Create(parent: U32, auths: seq<AuthCommand>, userAuth: Bytes, data: Bytes, area: Bytes)
    | Load(parent: U32, auths: seq<AuthCommand>, inPrivate: Bytes, inPublic: Bytes)
    | Import(parent: U32, auths: seq<AuthCommand>, objectPublic: Bytes, duplicate: Bytes, inSymSeed: Bytes)
    | StartAuthSession(nonceCaller: Bytes)
    | PolicyPCR(session: U32, pcrDigest: Bytes, sel: seq<PCRSelection>)
    | PolicySecret(authHandle: U32, session: U32, auths: seq<AuthCommand>, policyRef: Bytes)
    | Unseal(item: U32, auths: seq<AuthCommand>)
    | ActivateCredential(activate: U32, key: U32, auths: seq<AuthCommand>, credentialBlob: Bytes, secret: Bytes)
    | Quote(key: U32, auths: seq<AuthCommand>, qualifyingData: Bytes, sel: seq<PCRSelection>)

  /** A command must end where its last parameter ends. */
  function Done<T>(value: T, rest: Bytes): Result<T> {
    if rest == [] then Ok(value) else Err(BadStructure)
  }

  /** A selection list whose bitmaps all have three octets. */
  function TakeSelections(b: Bytes): Result<(seq<PCRSelection>, Bytes)> {
    var (sel, rest) :- ParseList(b);
    if MarshalList(sel) + rest == b then Ok((sel, rest)) else Err(BadStructure)
  }

  lemma TakeSelectionsPut(sel: seq<PCRSelection>, tail: Bytes)
    requires |sel| < 0x1_0000_0000
    ensures TakeSelections(MarshalList(sel) + tail) == Ok((NormalList(sel), tail))
  {
    ParseMarshalledWhole(sel, tail);
    MarshalNormal(sel);
    hide ParseList, MarshalList, NormalList;
  }

  function DigestSize(hash: U16): Option<nat> {
    if hash == 0x0004 then Some(20)
    else if hash == ALG_SHA256 then Some(32)
    else if hash == 0x000C then Some(48)
    else if hash == 0x000D then Some(64)
    else None
  }

  function DecodePcrExtend(b: Bytes): Result<Command> {
    var (pcr, b1) :- TakeU32(b);
    var (auths, b2) :- TakeAuthArea(b1);
    var (count, b3) :- TakeU32(b2);
    var (hash, b4) :- TakeU16(b3);
    if count != 1 || DigestSize(hash) != Some(|b4|) then Err(BadStructure)
    else Ok(PcrExtend(pcr, auths, hash, b4))
  }

  function TakeSensitiveCreate(b: Bytes): Result<(Bytes, Bytes)> {
    var (userAuth, b1) :- UnmarshalTPM2B(b);
    var (data, b2) :- UnmarshalTPM2B(b1);
    Done((userAuth, data), b2)
  }

  function DecodeCreate(b: Bytes): Result<Command> {
    var (parent, b1) :- TakeU32(b);
    var (auths, b2) :- TakeAuthArea(b1);
    var (inSensitive, b3) :- UnmarshalTPM2B(b2);
    var (userAuth, data) :- TakeSensitiveCreate(inSensitive);
    var (area, b4) :- UnmarshalTPM2B(b3);
    var (_, b5) :- UnmarshalTPM2B(b4);
    var (_, b6) :- ParseList(b5);
    Done(Create(parent, auths, userAuth, data, area), b6)
  }

  function DecodeLoad(b: Bytes): Result<Command> {
    var (parent, b1) :- TakeU32(b);
    var (auths, b2) :- TakeAuthArea(b1);
    var (inPrivate, b3) :- UnmarshalTPM2B(b2);
    var (inPublic, b4) :- UnmarshalTPM2B(b3);
    Done(Load(parent, auths, inPrivate, inPublic), b4)
  }

  /** Outer wrap only: no inner cipher, hence no encryption key. */
  function DecodeImport(b: Bytes): Result<Command> {
    var (parent, b1) :- TakeU32(b);
    var (auths, b2) :- TakeAuthArea(b1);
    var (encryptionKey, b3) :- UnmarshalTPM2B(b2);
    var (objectPublic, b4) :- UnmarshalTPM2B(b3);
    var (duplicate, b5) :- UnmarshalTPM2B(b4);
    var (inSymSeed, b6) :- UnmarshalTPM2B(b5);
    var (symmetric, b7) :- TakeU16(b6);
    if encryptionKey != [] || symmetric != ALG_NULL then Err(BadStructure)
    else Done(Import(parent, auths, objectPublic, duplicate, inSymSeed), b7)
  }

  /** Unsalted, unbound, unencrypted SHA-256 policy sessions only. */
  function DecodeStartAuthSession(b: Bytes): Result<Command> {
    var (tpmKey, b1) :- TakeU32(b);
    var (bind, b2) :- TakeU32(b1);
    var (nonceCaller, b3) :- UnmarshalTPM2B(b2);
    var (salt, b4) :- UnmarshalTPM2B(b3);
    var (sessionType, b5) :- TakeU8(b4);
    var (symmetric, b6) :- TakeU16(b5);
    var (authHash, b7) :- TakeU16(b6);
    if tpmKey != RH_NULL || bind != RH_NULL || salt != [] || sessionType != SE_POLICY || symmetric != ALG_NULL || authHash != ALG_SHA256
    then Err(BadStructure)
    else Done(StartAuthSession(nonceCaller), b7)
  }

  function DecodePolicyPCR(b: Bytes): Result<Command> {
    var (session, b1) :- TakeU32(b);
    var (pcrDigest, b2) :- UnmarshalTPM2B(b1);
    var (sel, b3) :- TakeSelections(b2);
    Done(PolicyPCR(session, pcrDigest, sel), b3)
  }

  /** Neither nonceTPM, cpHashA nor an expiration. */
  function DecodePolicySecret(b: Bytes): Result<Command> {
    var (authHandle, b1) :- TakeU32(b);
    var (session, b2) :- TakeU32(b1);
    var (auths, b3) :- TakeAuthArea(b2);
    var (nonceTPM, b4) :- UnmarshalTPM2B(b3);
    var (cpHashA, b5) :- UnmarshalTPM2B(b4);
    var (policyRef, b6) :- UnmarshalTPM2B(b5);
    var (expiration, b7) :- TakeU32(b6);
    if nonceTPM != [] || cpHashA != [] || expiration != 0 then Err(BadStructure)
    else Done(PolicySecret(authHandle, session, auths, policyRef), b7)
  }

  function DecodeUnseal(b: Bytes): Result<Command> {
    var (item, b1) :- TakeU32(b);
    var (auths, b2) :- TakeAuthArea(b1);
    Done(Unseal(item, auths), b2)
  }

  function DecodeActivateCredential(b: Bytes): Result<Command> {
    var (activate, b1) :- TakeU32(b);
    var (key, b2) :- TakeU32(b1);
    var (auths, b3) :- TakeAuthArea(b2);
    var (credentialBlob, b4) :- UnmarshalTPM2B(b3);
    var (secret, b5) :- UnmarshalTPM2B(b4);
    Done(ActivateCredential(activate, key, auths, credentialBlob, secret), b5)
  }

  function DecodeQuote(b: Bytes): Result<Command> {
    var (key, b1) :- TakeU32(b);
    var (auths, b2) :- TakeAuthArea(b1);
    var (qualifyingData, b3) :- UnmarshalTPM2B(b2);
    var (scheme, b4) :- TakeU16(b3);
    var (sel, b5) :- TakeSelections(b4);
    if scheme != ALG_NULL then Err(BadStructure)
    else Done(Quote(key, auths, qualifyingData, sel), b5)
  }

  function DecodeBody(tag: U16, cc: U32, b: Bytes): Result<Command> {
    if tag == TAG_SESSIONS then
      if cc == CC_PCR_EXTEND then DecodePcrExtend(b)
      else if cc == CC_CREATE then DecodeCreate(b)
      else if cc == CC_LOAD then DecodeLoad(b)
      else if cc == CC_IMPORT then DecodeImport(b)
      else if cc == CC_POLICY_SECRET then DecodePolicySecret(b)
      else if cc == CC_UNSEAL then DecodeUnseal(b)
      else if cc == CC_ACTIVATE_CREDENTIAL then DecodeActivateCredential(b)
      else if cc == CC_QUOTE then DecodeQuote(b)
      else Err(BadStructure)
    else if tag == TAG_NO_SESSIONS then
      if cc == CC_START_AUTH_SESSION then DecodeStartAuthSession(b)
      else if cc == CC_POLICY_PCR then DecodePolicyPCR(b)
      else Err(BadStructure)
    else Err(BadStructure)
  }

  /** A whole command buffer: header, declared size, body. */
  function Decode(cmd: Bytes): Result<Command> {
    var (tag, cc, body) :- ParseFrame(cmd);
    if U32At(cmd, 2) != |cmd| then Err(BadStructure) else DecodeBody(tag, cc, body)
  }

  /** A body small enough for its size to be declared in 32 bits. */
  predicate Frameable(body: Bytes) {
    |body| + 10 < 0x1_0000_0000
  }

  lemma DecodeFramed(tag: U16, cc: U32, body: Bytes)
    requires Frameable(body)
    ensures Decode(Frame(tag, cc, body)) == DecodeBody(tag, cc, body)
  {
    ParseFramed(tag, cc, body);
    hide Frame, ParseFrame, DecodeBody, U32At;
  }

  // ---------------------------------------------------------------------
  // The decoder inverts every body
  // ---------------------------------------------------------------------

  lemma EmptyTPM2B(tail: Bytes)
    ensures UnmarshalTPM2B(BE16(0) + tail) == Ok(([], tail))
  {
    UnmarshalMarshal([], tail);
    assert TPM2B([]) == BE16(0);
  }

  lemma DecodePCRExtendBody(pcr: U32, hash: U16, digest: Bytes)
    requires DigestSize(hash) == Some(|digest|)
    ensures DecodeBody(TAG_SESSIONS, CC_PCR_EXTEND, PCRExtendBody(pcr, hash, digest))
            == Ok(PcrExtend(pcr, [PasswordAuth()], hash, digest))
  {
    hide BE16, BE32, TakeU16, TakeU32, OneAuth, TakeAuthArea, DigestSize;
    var b2 := BE32(1) + (BE16(hash) + digest);
    TakeU32Put(pcr, OneAuth(PasswordAuth(), b2));
    TakeOneAuth(PasswordAuth(), b2);
    TakeU32Put(1, BE16(hash) + digest);
    TakeU16Put(hash, digest);
  }

  lemma DecodeCreateBody(parent: U32, secret: Bytes, area: Bytes)
    requires |secret| + 4 <= 0xFFFF && Fits(area)
    ensures DecodeBody(TAG_SESSIONS, CC_CREATE, CreateBody(parent, secret, area))
            == Ok(Create(parent, [PasswordAuth()], [], secret, area))
  {
    TakeSensitiveCreatePut(secret);
    ParseEmptyList();
    EmptyTPM2B(BE32(0));
    hide BE16, BE32, TakeU32, OneAuth, TakeAuthArea, TPM2B, UnmarshalTPM2B, ParseList, TakeSensitiveCreate;
    var b3 := TPM2B(area) + (BE16(0) + BE32(0));
    var b2 := MarshalSealSensitiveCreate(secret) + b3;
    TakeU32Put(parent, OneAuth(PasswordAuth(), b2));
    TakeOneAuth(PasswordAuth(), b2);
    UnmarshalMarshal(BE16(0) + TPM2B(secret), b3);
    UnmarshalMarshal(area, BE16(0) + BE32(0));
  }

  lemma TakeSensitiveCreatePut(secret: Bytes)
    requires Fits(secret)
    ensures TakeSensitiveCreate(BE16(0) + TPM2B(secret)) == Ok(([], secret))
  {
    EmptyTPM2B(TPM2B(secret));
    UnmarshalMarshal(secret, []);
    assert TPM2B(secret) + [] == TPM2B(secret);
    hide BE16, TPM2B, UnmarshalTPM2B;
  }

  lemma ParseEmptyList()
    ensures ParseList(BE32(0)) == Ok(([], []))
  {
    TakeU32Put(0, []);
    assert BE32(0) + [] == BE32(0);
  }

  lemma DecodeLoadBody(parent: U32, priv: Bytes, pub: Bytes)
    requires Fits(priv) && Fits(pub)
    ensures DecodeBody(TAG_SESSIONS, CC_LOAD, LoadBody(parent, priv, pub))
            == Ok(Load(parent, [PasswordAuth()], priv, pub))
  {
    hide BE32, TakeU32, OneAuth, TakeAuthArea, TPM2B, UnmarshalTPM2B;
    var b2 := TPM2B(priv) + (TPM2B(pub) + []);
    TakeU32Put(parent, OneAuth(PasswordAuth(), b2));
    TakeOneAuth(PasswordAuth(), b2);
    UnmarshalMarshal(priv, TPM2B(pub) + []);
    UnmarshalMarshal(pub, []);
  }

  /** The two blobs arrive with exactly one size prefix each. */
  lemma DecodeImportBody(parent: U32, objectPublic: Bytes, duplicate: Bytes, inSymSeed: Bytes)
    requires Fits(objectPublic) && Fits(duplicate) && Fits(inSymSeed)
    ensures DecodeBody(TAG_SESSIONS, CC_IMPORT, ImportBody(parent, objectPublic, TPM2B(duplicate), TPM2B(inSymSeed)))
            == Ok(Import(parent, [PasswordAuth()], objectPublic, duplicate, inSymSeed))
  {
    hide BE16, BE32, TakeU16, TakeU32, OneAuth, TakeAuthArea, TPM2B, UnmarshalTPM2B;
    var b6 := BE16(ALG_NULL) + [];
    var b5 := TPM2B(inSymSeed) + b6;
    var b4 := TPM2B(duplicate) + b5;
    var b3 := TPM2B(objectPublic) + b4;
    TakeU32Put(parent, OneAuth(PasswordAuth(), BE16(0) + b3));
    TakeOneAuth(PasswordAuth(), BE16(0) + b3);
    EmptyTPM2B(b3);
    UnmarshalMarshal(objectPublic, b4);
    UnmarshalMarshal(duplicate, b5);
    UnmarshalMarshal(inSymSeed, b6);
    TakeU16Put(ALG_NULL, []);
  }

  lemma DecodeStartAuthSessionBody(nonceCaller: Bytes)
    requires Fits(nonceCaller)
    ensures DecodeBody(TAG_NO_SESSIONS, CC_START_AUTH_SESSION, StartAuthSessionBody(nonceCaller)) == Ok(StartAuthSession(nonceCaller))
  {
    var b5 := BE16(ALG_NULL) + (BE16(ALG_SHA256) + []);
    var b4 := [SE_POLICY] + b5;
    assert TakeU8(b4) == Ok((SE_POLICY, b5));
    hide BE16, BE32, TakeU8, TakeU16, TakeU32, TPM2B, UnmarshalTPM2B;
    var b2 := TPM2B(nonceCaller) + (BE16(0) + b4);
    TakeU32Put(RH_NULL, BE32(RH_NULL) + b2);
    TakeU32Put(RH_NULL, b2);
    UnmarshalMarshal(nonceCaller, BE16(0) + b4);
    EmptyTPM2B(b4);
    TakeU16Put(ALG_NULL, BE16(ALG_SHA256) + []);
    TakeU16Put(ALG_SHA256, []);
  }

  lemma DecodePolicyPCRBody(session: U32, sel: seq<PCRSelection>)
    requires |sel| < 0x1_0000_0000
    ensures DecodeBody(TAG_NO_SESSIONS, CC_POLICY_PCR, PolicyPCRBody(session, sel)) == Ok(PolicyPCR(session, [], NormalList(sel)))
  {
    hide BE16, BE32, TakeU32, UnmarshalTPM2B, TakeSelections, MarshalList, NormalList;
    hide DecodePcrExtend, DecodeCreate, DecodeLoad, DecodeImport, DecodePolicySecret, DecodeUnseal, DecodeActivateCredential, DecodeQuote;
    TakeU32Put(session, BE16(0) + (MarshalList(sel) + []));
    EmptyTPM2B(MarshalList(sel) + []);
    TakeSelectionsPut(sel, []);
  }

  lemma DecodePolicySecretBody(authHandle: U32, session: U32)
    ensures DecodeBody(TAG_SESSIONS, CC_POLICY_SECRET, PolicySecretBody(authHandle, session))
            == Ok(PolicySecret(authHandle, session, [PasswordAuth()], []))
  {
    hide BE16, BE32, TakeU32, UnmarshalTPM2B, OneAuth, TakeAuthArea;
    var b6 := BE32(0) + [];
    var b3 := BE16(0) + (BE16(0) + (BE16(0) + b6));
    TakeU32Put(authHandle, BE32(session) + OneAuth(PasswordAuth(), b3));
    TakeU32Put(session, OneAuth(PasswordAuth(), b3));
    TakeOneAuth(PasswordAuth(), b3);
    EmptyTPM2B(BE16(0) + (BE16(0) + b6));
    EmptyTPM2B(BE16(0) + b6);
    EmptyTPM2B(b6);
    TakeU32Put(0, []);
  }

  lemma DecodeUnsealBody(item: U32, session: U32)
    ensures DecodeBody(TAG_SESSIONS, CC_UNSEAL, UnsealBody(item, session)) == Ok(Unseal(item, [PolicyAuth(session)]))
  {
    hide BE32, TakeU32, OneAuth, TakeAuthArea;
    TakeU32Put(item, OneAuth(PolicyAuth(session), []));
    TakeOneAuth(PolicyAuth(session), []);
  }

  /** Two handles, two sessions in handle order, two blobs with one size prefix each. */
  lemma DecodeActivateCredentialBody(activate: U32, key: U32, session: U32, credentialBlob: Bytes, secret: Bytes)
    requires Fits(credentialBlob) && Fits(secret)
    ensures DecodeBody(TAG_SESSIONS, CC_ACTIVATE_CREDENTIAL, ActivateCredentialBody(activate, key, session, TPM2B(credentialBlob), TPM2B(secret)))
            == Ok(ActivateCredential(activate, key, [PasswordAuth(), PolicyAuth(session)], credentialBlob, secret))
  {
    hide BE32, TakeU32, AuthArea, TakeAuthArea, TPM2B, UnmarshalTPM2B, PutAuth;
    var b3 := TPM2B(credentialBlob) + (TPM2B(secret) + []);
    var area := AuthArea([MarshalPasswordAuth(), MarshalPolicyAuth(session)]);
    TakeU32Put(activate, BE32(key) + (area + b3));
    TakeU32Put(key, area + b3);
    TakeTwoAuths(PasswordAuth(), PolicyAuth(session), b3);
    UnmarshalMarshal(credentialBlob, TPM2B(secret) + []);
    UnmarshalMarshal(secret, []);
  }

  lemma DecodeQuoteBody(key: U32, qualifyingData: Bytes, sel: seq<PCRSelection>)
    requires Fits(qualifyingData) && |sel| < 0x1_0000_0000
    ensures DecodeBody(TAG_SESSIONS, CC_QUOTE, QuoteBody(key, qualifyingData, sel))
            == Ok(Quote(key, [PasswordAuth()], qualifyingData, NormalList(sel)))
  {
    hide BE16, BE32, TakeU16, TakeU32, OneAuth, TakeAuthArea, TPM2B, UnmarshalTPM2B, TakeSelections, MarshalList, NormalList;
    var b4 := MarshalList(sel) + [];
    var b2 := TPM2B(qualifyingData) + (BE16(ALG_NULL) + b4);
    TakeU32Put(key, OneAuth(PasswordAuth(), b2));
    TakeOneAuth(PasswordAuth(), b2);
    UnmarshalMarshal(qualifyingData, BE16(ALG_NULL) + b4);
    TakeU16Put(ALG_NULL, b4);
    TakeSelectionsPut(sel, []);
  }
}
