/**
  A reference TPM for the flows this package drives, after Part 3 (Commands) of
  the TCG TPM 2.0 Library: TPM2_PCR_Extend, TPM2_Create, TPM2_Load, TPM2_Import,
  TPM2_StartAuthSession, TPM2_PolicyPCR, TPM2_PolicySecret, TPM2_Unseal,
  TPM2_ActivateCredential and TPM2_Quote. It takes command buffers and answers
  response buffers; it parses the very bytes the client emits.

  A session also keeps the list of policy assertions made in it since it was
  started or last used. No rule reads that list: it only lets the results about
  whole runs say what a session was shown.
 */
module RefTpm {
  import opened Wire
  import opened Bits
  import opened Crypto
  import opened Kdf
  import opened Pcr
  import opened PublicArea
  import opened Policy
  import opened OuterWrap
  import opened Duplication
  import opened Attest
  import opened Transport
  import opened Commands

  const RC_ATTRIBUTES: U32 := 0x082
  const RC_HASH: U32 := 0x083
  const RC_VALUE: U32 := 0x084
  const RC_KEY_SIZE: U32 := 0x087
  const RC_TYPE: U32 := 0x08A
  const RC_HANDLE: U32 := 0x08B
  const RC_AUTH_FAIL: U32 := 0x08E
  const RC_SIZE: U32 := 0x095
  const RC_POLICY_FAIL: U32 := 0x09D
  const RC_INTEGRITY: U32 := 0x09F
  const RC_BINDING: U32 := 0x0A5
  const RC_ECC_POINT: U32 := 0x0A7
  const RC_PCR_CHANGED: U32 := 0x128
  const RC_AUTH_UNAVAILABLE: U32 := 0x12F
  const RC_OBJECT_MEMORY: U32 := 0x902
  const RC_SESSION_HANDLES: U32 := 0x905

  const TRANSIENT_BASE: U32 := 0x8000_0000
  const SESSION_BASE: U32 := 0x0300_0000
  const HANDLE_SPACE := 0x0100_0000

  /** What the TPM holds in confidence for a loaded object. */
  datatype Secret =
    | SealedData(sensitive: Sensitive)
    | PrivateKey(d: nat, protectionSeed: Bytes)

  /** A loaded object: its public area, two fields read from it, and its secret. */
  datatype Object = Object(area: Bytes, attributes: U32, authPolicy: Bytes, secret: Secret)

  datatype Assertion =
    | PcrAsserted(sel: seq<PCRSelection>, values: Bytes)
    | SecretAsserted(entity: Bytes, policyRef: Bytes)

  /** pcrCounter is the PCR update counter at the session's PolicyPCR, if any. */
  datatype Session = Session(policyDigest: Digest, pcrCounter: Option<nat>, history: seq<Assertion>)

  datatype Tpm = Tpm(
    banks: map<U16, seq<Bytes>>,
    pcrCounter: nat,
    objects: map<U32, Object>,
    sessions: map<U32, Session>,
    objectCount: nat,
    sessionCount: nat,
    draws: nat)

  function Require(condition: bool, rc: U32): Result<()> {
    if condition then Ok(()) else Err(Refused(rc))
  }

  // ---------------------------------------------------------------------
  // PCRs
  // ---------------------------------------------------------------------

  function PcrValue(bank: seq<Bytes>, pcr: int): Bytes {
    if 0 <= pcr < |bank| then bank[pcr] else []
  }

  function BankValues(bank: seq<Bytes>, pcrs: seq<int>): seq<Bytes> {
    if pcrs == [] then [] else [PcrValue(bank, pcrs[0])] + BankValues(bank, pcrs[1..])
  }

  /** The selected PCR values, in selection order and ascending within a bank. */
  function SelectedValues(banks: map<U16, seq<Bytes>>, sel: seq<PCRSelection>): Result<seq<Bytes>> {
    if sel == [] then Ok([])
    else
      var _ :- Require(sel[0].hash in banks, RC_HASH);
      var rest :- SelectedValues(banks, sel[1..]);
      Ok(BankValues(banks[sel[0].hash], sel[0].pcrs) + rest)
  }

  function DoPcrExtend(c: Suite, st: Tpm, pcr: U32, auths: seq<AuthCommand>, hash: U16, digest: Bytes): Result<(Tpm, Bytes)> {
    var _ :- Require(|auths| == 1 && auths[0].handle == RS_PW && auths[0].hmac == [], RC_AUTH_FAIL);
    var _ :- Require(hash in st.banks, RC_HASH);
    var bank := st.banks[hash];
    var _ :- Require(pcr < |bank|, RC_VALUE);
    var extended := bank[pcr := c.pcrHash(hash, bank[pcr] + digest)];
    Ok((st.(banks := st.banks[hash := extended], pcrCounter := st.pcrCounter + 1), BE32(0)))
  }

  // ---------------------------------------------------------------------
  // Authorization
  // ---------------------------------------------------------------------

  function AuthValue(o: Object): Bytes {
    if o.secret.SealedData? then o.secret.sensitive.authValue else []
  }

  /** A password authorizes only objects that allow it. */
  predicate PasswordAuthorizes(o: Object, a: AuthCommand) {
    a.handle == RS_PW && HasAttribute(o.attributes, USER_WITH_AUTH) && a.hmac == AuthValue(o)
  }

  function FreshSession(): Session {
    Session(Zeros(32), None, [])
  }

  /** After use a session starts over, or is flushed when continueSession is clear. */
  function SessionUsed(st: Tpm, a: AuthCommand): Tpm {
    if a.attributes % 2 == 1 then st.(sessions := st.sessions[a.handle := FreshSession()])
    else st.(sessions := st.sessions - {a.handle})
  }

  /** A policy session authorizes when its digest is the object's policy and its PCRs are current. */
  function PolicyAuthorizes(st: Tpm, o: Object, a: AuthCommand): Result<()> {
    var _ :- Require(a.handle in st.sessions, RC_HANDLE);
    var session := st.sessions[a.handle];
    var _ :- Require(session.policyDigest == o.authPolicy, RC_POLICY_FAIL);
    Require(session.pcrCounter.None? || session.pcrCounter == Some(st.pcrCounter), RC_PCR_CHANGED)
  }

  /** USER-role authorization by password or policy; the state afterwards. */
  function Authorize(st: Tpm, o: Object, a: AuthCommand): Result<Tpm> {
    if a.handle == RS_PW then
      var _ :- Require(PasswordAuthorizes(o, a), RC_AUTH_UNAVAILABLE);
      Ok(st)
    else
      var _ :- PolicyAuthorizes(st, o, a);
      Ok(SessionUsed(st, a))
  }

  // ---------------------------------------------------------------------
  // Sealed objects
  // ---------------------------------------------------------------------

  function ParentKey(st: Tpm, parent: U32, auths: seq<AuthCommand>): (r: Result<Object>)
    ensures r.Ok? ==> parent in st.objects && r.value == st.objects[parent] && r.value.secret.PrivateKey?
  {
    var _ :- Require(parent in st.objects, RC_HANDLE);
    var o := st.objects[parent];
    var _ :- Require(o.secret.PrivateKey?, RC_TYPE);
    var _ :- Require(|auths| == 1 && PasswordAuthorizes(o, auths[0]), RC_AUTH_FAIL);
    Ok(o)
  }

  /** The public area of a sealed object, all of it, with the Name algorithm this TPM has. */
  function SealedPublic(area: Bytes): (r: Result<SealedArea>)
    ensures r.Ok? ==> TakeSealed(area) == Ok((r.value, []))
  {
    var (a, rest) :- TakeSealed(area);
    var _ :- Require(rest == [], RC_SIZE);
    var _ :- Require(a.nameAlg == ALG_SHA256, RC_HASH);
    Ok(a)
  }

  /** The keyed-hash binding of public and sensitive areas checked at load. */
  function CheckBinding(c: Suite, a: SealedArea, s: Sensitive): Result<()> {
    var _ :- Require(|s.seedValue| == 32, RC_KEY_SIZE);
    Require(a.unique == UniqueOf(c, s.seedValue, s.data), RC_BINDING)
  }

  /** The private blob of an object under its parent: the sensitive area, outer-wrapped. */
  function PrivateBlob(c: Suite, protectionSeed: Bytes, area: Bytes, sensitive: Bytes): (b: Bytes)
    requires Wrappable(sensitive)
    ensures Fits(b)
  {
    Seal(c, protectionSeed, NameOf(c, area), sensitive)
  }

  /** Create seals the data it is given under a seed value of its own. */
  function DoCreate(c: Suite, st: Tpm, parent: U32, auths: seq<AuthCommand>, userAuth: Bytes, data: Bytes, template: Bytes): Result<(Tpm, Bytes)> {
    var key :- ParentKey(st, parent, auths);
    var a :- SealedPublic(template);
    var seedValue := c.tpmRandom(st.draws);
    var _ :- Require(Fits(a.policy) && Fits(userAuth) && Fits(data), RC_SIZE);
    var sensitive := PutSensitive(Sensitive(userAuth, seedValue, data));
    var area := PutSealed(a.(unique := UniqueOf(c, seedValue, data)), []);
    var _ :- Require(Wrappable(sensitive) && Fits(area), RC_SIZE);
    Ok((st.(draws := st.draws + 1),
        BE32(0) + (TPM2B(PrivateBlob(c, key.secret.protectionSeed, area, sensitive)) + (TPM2B(area) + CREATION_TAIL))))
  }

  /** creationData, creationHash and creationTicket, which the client does not read. */
  const CREATION_TAIL: Bytes := [0, 0, 0, 0]

  /** The object a (private, public) pair denotes under a parent. */
  function LoadedObject(c: Suite, key: Object, inPrivate: Bytes, inPublic: Bytes): Result<Object>
    requires key.secret.PrivateKey?
  {
    var a :- SealedPublic(inPublic);
    var plain :- Open(c, key.secret.protectionSeed, NameOf(c, inPublic), inPrivate);
    var s :- TakeSensitive(plain);
    var _ :- CheckBinding(c, a, s);
    Ok(Object(inPublic, a.attributes, a.policy, SealedData(s)))
  }

  function DoLoad(c: Suite, st: Tpm, parent: U32, auths: seq<AuthCommand>, inPrivate: Bytes, inPublic: Bytes): Result<(Tpm, Bytes)> {
    var key :- ParentKey(st, parent, auths);
    var o :- LoadedObject(c, key, inPrivate, inPublic);
    var _ :- Require(st.objectCount < HANDLE_SPACE, RC_OBJECT_MEMORY);
    var handle := TRANSIENT_BASE + st.objectCount;
    Ok((st.(objects := st.objects[handle := o], objectCount := st.objectCount + 1),
        BE32(handle) + (BE32(0) + TPM2B(NameOf(c, inPublic)))))
  }

  /** The sensitive area a duplication blob carries for the parent key, checked as at load. */
  function ImportedSensitive(c: Suite, key: Object, objectPublic: Bytes, duplicate: Bytes, inSymSeed: Bytes): Result<Bytes>
    requires key.secret.PrivateKey?
  {
    var a :- SealedPublic(objectPublic);
    var _ :- Require(!HasAttribute(a.attributes, FIXED_TPM) && !HasAttribute(a.attributes, FIXED_PARENT), RC_ATTRIBUTES);
    var plain :- Unwrap(c, LABEL_DUPLICATE, key.secret.d, NameOf(c, objectPublic), duplicate, inSymSeed);
    var s :- TakeSensitive(plain);
    var _ :- CheckBinding(c, a, s);
    Ok(plain)
  }

  function DoImport(c: Suite, st: Tpm, parent: U32, auths: seq<AuthCommand>, objectPublic: Bytes, duplicate: Bytes, inSymSeed: Bytes): Result<(Tpm, Bytes)> {
    var key :- ParentKey(st, parent, auths);
    var plain :- ImportedSensitive(c, key, objectPublic, duplicate, inSymSeed);
    var _ :- Require(Wrappable(plain), RC_SIZE);
    Ok((st, BE32(0) + (TPM2B(PrivateBlob(c, key.secret.protectionSeed, objectPublic, plain)) + [])))
  }

  function DoUnseal(st: Tpm, item: U32, auths: seq<AuthCommand>): Result<(Tpm, Bytes)> {
    var _ :- Require(item in st.objects, RC_HANDLE);
    var o := st.objects[item];
    var _ :- Require(o.secret.SealedData?, RC_TYPE);
    var _ :- Require(|auths| == 1, RC_AUTH_FAIL);
    var next :- Authorize(st, o, auths[0]);
    var _ :- Require(Fits(o.secret.sensitive.data), RC_SIZE);
    Ok((next, BE32(0) + (TPM2B(o.secret.sensitive.data) + [])))
  }

  // ---------------------------------------------------------------------
  // Policy sessions
  // ---------------------------------------------------------------------

  function DoStartAuthSession(c: Suite, st: Tpm): Result<(Tpm, Bytes)> {
    var _ :- Require(st.sessionCount < HANDLE_SPACE, RC_SESSION_HANDLES);
    var handle := SESSION_BASE + st.sessionCount;
    Ok((st.(sessions := st.sessions[handle := FreshSession()], sessionCount := st.sessionCount + 1, draws := st.draws + 1),
        BE32(handle) + (TPM2B(c.tpmRandom(st.draws)) + [])))
  }

  /** One policy update. */
  function Extend(c: Suite, start: Digest, a: Assertion): Digest {
    match a
    case PcrAsserted(sel, values) => ExtendPcr(c, start, sel, values)
    case SecretAsserted(entity, policyRef) => c.Sha(c.Sha(SecretMessage(start, entity)) + policyRef)
  }

  function SecretMessage(start: Digest, entity: Bytes): Bytes {
    start + (BE32(CC_POLICY_SECRET) + entity)
  }

  function DoPolicyPCR(c: Suite, st: Tpm, handle: U32, pcrDigest: Bytes, sel: seq<PCRSelection>): Result<(Tpm, Bytes)> {
    var _ :- Require(handle in st.sessions, RC_HANDLE);
    var s := st.sessions[handle];
    var vals :- SelectedValues(st.banks, sel);
    var values := Concat(vals);
    var _ :- Require(pcrDigest == [] || pcrDigest == c.Sha(values), RC_VALUE);
    var _ :- Require(s.pcrCounter.None? || s.pcrCounter == Some(st.pcrCounter), RC_PCR_CHANGED);
    var asserted := PcrAsserted(sel, values);
    var next := Session(Extend(c, s.policyDigest, asserted), Some(st.pcrCounter), s.history + [asserted]);
    Ok((st.(sessions := st.sessions[handle := next]), []))
  }

  /** Permanent entities with an empty authValue; their Name is their handle. */
  function DoPolicySecret(c: Suite, st: Tpm, authHandle: U32, handle: U32, auths: seq<AuthCommand>, policyRef: Bytes): Result<(Tpm, Bytes)> {
    var _ :- Require(0x4000_0000 <= authHandle < 0x4100_0000, RC_HANDLE);
    var _ :- Require(handle in st.sessions, RC_HANDLE);
    var _ :- Require(|auths| == 1 && auths[0].handle == RS_PW && auths[0].hmac == [], RC_AUTH_FAIL);
    var s := st.sessions[handle];
    var asserted := SecretAsserted(BE32(authHandle), policyRef);
    var next := s.(policyDigest := Extend(c, s.policyDigest, asserted), history := s.history + [asserted]);
    Ok((st.(sessions := st.sessions[handle := next]), BE32(0) + POLICY_SECRET_TAIL))
  }

  /** timeout and policyTicket, which the client does not read. */
  const POLICY_SECRET_TAIL: Bytes := [0, 0]

  // ---------------------------------------------------------------------
  // Credential activation and quotes
  // ---------------------------------------------------------------------

  function DoActivateCredential(c: Suite, st: Tpm, activate: U32, key: U32, auths: seq<AuthCommand>, blob: Bytes, secret: Bytes): Result<(Tpm, Bytes)> {
    var _ :- Require(activate in st.objects && key in st.objects, RC_HANDLE);
    var ak, ek := st.objects[activate], st.objects[key];
    var _ :- Require(ek.secret.PrivateKey?, RC_TYPE);
    var _ :- Require(|auths| == 2, RC_AUTH_FAIL);
    var _ :- Require(PasswordAuthorizes(ak, auths[0]), RC_AUTH_FAIL);
    var next :- Authorize(st, ek, auths[1]);
    var name :- ObjectName(c, ak.area);
    var credential :- Unwrap(c, LABEL_IDENTITY, ek.secret.d, name, blob, secret);
    var _ :- Require(Fits(credential), RC_SIZE);
    Ok((next, BE32(0) + (TPM2B(credential) + [])))
  }

  /** The attest a key signs: its Name, the nonce, a clock, the selection and the PCR digest. */
  function Attested(c: Suite, st: Tpm, ak: Object, qualifyingData: Bytes, sel: seq<PCRSelection>, values: Bytes): Quoted {
    Quoted(NameOf(c, ak.area), qualifyingData, Zeros(CLOCK_BYTES), sel, c.Sha(values))
  }

  function DoQuote(c: Suite, st: Tpm, key: U32, auths: seq<AuthCommand>, qualifyingData: Bytes, sel: seq<PCRSelection>): Result<(Tpm, Bytes)> {
    var _ :- Require(key in st.objects, RC_HANDLE);
    var ak := st.objects[key];
    var _ :- Require(ak.secret.PrivateKey?, RC_TYPE);
    var _ :- Require(|auths| == 1 && PasswordAuthorizes(ak, auths[0]), RC_AUTH_FAIL);
    var vals :- SelectedValues(st.banks, sel);
    var q := Attested(c, st, ak, qualifyingData, sel, Concat(vals));
    var _ :- Require(ValidQuoted(q) && Fits(PutQuoted(q, [])), RC_SIZE);
    var message := PutQuoted(q, []);
    Ok((st, PutQuoteResponse(0, message, SignatureBy(c, ak.secret.d, message))))
  }

  // ---------------------------------------------------------------------
  // Dispatch
  // ---------------------------------------------------------------------

  function Exec(c: Suite, st: Tpm, cmd: Command): Result<(Tpm, Bytes)> {
    match cmd
    case PcrExtend(pcr, auths, hash, digest) => DoPcrExtend(c, st, pcr, auths, hash, digest)
    case Create(parent, auths, userAuth, data, area) => DoCreate(c, st, parent, auths, userAuth, data, area)
    case Load(parent, auths, inPrivate, inPublic) => DoLoad(c, st, parent, auths, inPrivate, inPublic)
    case Import(parent, auths, objectPublic, duplicate, inSymSeed) => DoImport(c, st, parent, auths, objectPublic, duplicate, inSymSeed)
    case StartAuthSession(_) => DoStartAuthSession(c, st)
    case PolicyPCR(session, pcrDigest, sel) => DoPolicyPCR(c, st, session, pcrDigest, sel)
    case PolicySecret(authHandle, session, auths, policyRef) => DoPolicySecret(c, st, authHandle, session, auths, policyRef)
    case Unseal(item, auths) => DoUnseal(st, item, auths)
    case ActivateCredential(activate, key, auths, blob, secret) => DoActivateCredential(c, st, activate, key, auths, blob, secret)
    case Quote(key, auths, qualifyingData, sel) => DoQuote(c, st, key, auths, qualifyingData, sel)
  }

  /** The response code a failed command reports; never success, never RC_RETRY. */
  function CodeFor(e: Error): (rc: U32)
    ensures rc != RC_SUCCESS && rc != RC_RETRY
  {
    match e
    case Refused(rc) => if rc == RC_SUCCESS || rc == RC_RETRY then RC_VALUE else rc
    case BadIntegrity => RC_INTEGRITY
    case PointNotOnCurve => RC_ECC_POINT
    case ShortBuffer => RC_SIZE
    case UnsupportedNameAlg => RC_HASH
    case _ => RC_VALUE
  }

  function TagOf(cmd: Command): U16 {
    if cmd.StartAuthSession? || cmd.PolicyPCR? then TAG_NO_SESSIONS else TAG_SESSIONS
  }

  /** One command buffer in, one response buffer out; a refused command changes nothing. */
  function RefStep(c: Suite, st: Tpm, buffer: Bytes): (Tpm, Result<Bytes>) {
    match Decode(buffer)
    case Err(e) => (st, Ok(Frame(TAG_NO_SESSIONS, CodeFor(e), [])))
    case Ok(cmd) =>
      match Exec(c, st, cmd)
      case Err(e) => (st, Ok(Frame(TAG_NO_SESSIONS, CodeFor(e), [])))
      case Ok((next, params)) => (next, Ok(Frame(TagOf(cmd), RC_SUCCESS, params)))
  }

  /** The reference TPM as a transport. */
  function Device(c: Suite): Step<Tpm> {
    (st, buffer) => RefStep(c, st, buffer)
  }

  /** It never asks for a retry, so execute sends each command to it once. */
  lemma IssueOnce(c: Suite, st: Tpm, tag: U16, cc: U32, body: Bytes)
    requires Frameable(body)
    ensures Issue(Device(c), st, tag, cc, body)
            == match DecodeBody(tag, cc, body)
               case Err(e) => (st, Err(TpmError(cc, CodeFor(e))))
               case Ok(cmd) =>
                 match Exec(c, st, cmd)
                 case Err(e) => (st, Err(TpmError(cc, CodeFor(e))))
                 case Ok((next, params)) => (next, Ok(params))
  {
    var buffer := Frame(tag, cc, body);
    DecodeFramed(tag, cc, body);
    hide Frame, ParseFrame, DecodeBody, Decode, Exec, CodeFor;
    var step := Device(c);
    assert After(step, st, buffer, 0) == st;
    var (next, reply) := RefStep(c, st, buffer);
    assert step(st, buffer) == (next, reply);
    assert After(step, st, buffer, 1) == next;
    RefReply(c, st, buffer);
    FirstReplyDecides(step, st, buffer);
  }

  /** Every response is a frame with a code other than RC_RETRY. */
  lemma RefReply(c: Suite, st: Tpm, buffer: Bytes)
    ensures var (next, reply) := RefStep(c, st, buffer);
            && !IsRetry(reply)
            && (Decode(buffer).Err? ==> forall cc :: Outcome(cc, reply) == Err(TpmError(cc, CodeFor(Decode(buffer).error))))
            && (Decode(buffer).Ok? ==>
                  match Exec(c, st, Decode(buffer).value)
                  case Err(e) => forall cc :: Outcome(cc, reply) == Err(TpmError(cc, CodeFor(e)))
                  case Ok((_, params)) => forall cc :: Outcome(cc, reply) == Ok(params))
  {
    hide Frame, ParseFrame, Decode, Exec;
    if Decode(buffer).Err? {
      ParseFramed(TAG_NO_SESSIONS, CodeFor(Decode(buffer).error), []);
    } else {
      match Exec(c, st, Decode(buffer).value)
      case Err(e) => ParseFramed(TAG_NO_SESSIONS, CodeFor(e), []);
      case Ok((_, params)) => ParseFramed(TagOf(Decode(buffer).value), RC_SUCCESS, params);
    }
  }

  // ---------------------------------------------------------------------
  // What a policy command leaves in a session, from the hash alone
  // ---------------------------------------------------------------------

  lemma PolicyPCRUpdate(c: Suite, st: Tpm, handle: U32, pcrDigest: Bytes, sel: seq<PCRSelection>)
    requires DoPolicyPCR(c, st, handle, pcrDigest, sel).Ok?
    ensures SelectedValues(st.banks, sel).Ok? && handle in st.sessions
    ensures var next := DoPolicyPCR(c, st, handle, pcrDigest, sel).value.0;
            handle in next.sessions &&
            next.sessions[handle].policyDigest
            == c.Sha(st.sessions[handle].policyDigest
                     + ([0, 0, 1, 0x7F] + (MarshalList(sel) + c.Sha(Concat(SelectedValues(st.banks, sel).value)))))
  {
    BE32Octets(CC_POLICY_PCR, 0, 0, 1, 0x7F);
    hide BE32, MarshalList, SelectedValues;
  }

  lemma PolicySecretUpdate(c: Suite, st: Tpm, authHandle: U32, handle: U32, auths: seq<AuthCommand>, policyRef: Bytes)
    requires DoPolicySecret(c, st, authHandle, handle, auths, policyRef).Ok?
    ensures handle in st.sessions
    ensures var next := DoPolicySecret(c, st, authHandle, handle, auths, policyRef).value.0;
            handle in next.sessions &&
            next.sessions[handle].policyDigest
            == c.Sha(c.Sha(st.sessions[handle].policyDigest + ([0, 0, 1, 0x51] + BE32(authHandle))) + policyRef)
  {
    BE32Octets(CC_POLICY_SECRET, 0, 0, 1, 0x51);
    hide BE32;
  }

  lemma {:induction false} BankValuesInOrder(bank: seq<Bytes>, pcrs: seq<int>, i: nat)
    requires i < |pcrs|
    ensures |BankValues(bank, pcrs)| == |pcrs|
    ensures BankValues(bank, pcrs)[i] == if 0 <= pcrs[i] < |bank| then bank[pcrs[i]] else []
  {
    if i > 0 {
      BankValuesInOrder(bank, pcrs[1..], i - 1);
    } else if |pcrs| > 1 {
      BankValuesInOrder(bank, pcrs[1..], 0);
    }
  }

  /** Within one bank the values come in selection order. */
  lemma OneBankInOrder(banks: map<U16, seq<Bytes>>, hash: U16, pcrs: seq<int>, i: nat)
    requires i < |pcrs|
    ensures var read := SelectedValues(banks, [PCRSelection(hash, pcrs)]);
            if hash in banks then
              read.Ok? && |read.value| == |pcrs| && read.value[i] == if 0 <= pcrs[i] < |banks[hash]| then banks[hash][pcrs[i]] else []
            else read == Err(Refused(0x083))
  {
    assert SelectedValues(banks, []) == Ok([]);
    if hash in banks {
      BankValuesInOrder(banks[hash], pcrs, i);
      assert BankValues(banks[hash], pcrs) + [] == BankValues(banks[hash], pcrs);
    }
  }

  /** Bank after bank, in the order of the selection. */
  lemma {:induction false} BanksInOrder(banks: map<U16, seq<Bytes>>, sel: seq<PCRSelection>, more: seq<PCRSelection>)
    requires SelectedValues(banks, sel).Ok? && SelectedValues(banks, more).Ok?
    ensures SelectedValues(banks, sel + more) == Ok(SelectedValues(banks, sel).value + SelectedValues(banks, more).value)
  {
    var vs, ws := SelectedValues(banks, sel).value, SelectedValues(banks, more).value;
    if sel == [] {
      assert [] + more == more && [] + ws == ws;
    } else {
      assert (sel + more)[1..] == sel[1..] + more;
      BanksInOrder(banks, sel[1..], more);
      Reassociate(BankValues(banks[sel[0].hash], sel[0].pcrs), SelectedValues(banks, sel[1..]).value, ws);
    }
  }
}
