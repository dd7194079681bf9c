/**
  Safety over whole runs of the reference TPM: what every command buffer
  whatsoever keeps, and what a successful Unseal of a PCR-sealed object implies.
 */
module Safety {
  import opened Wire
  import opened Crypto
  import opened Kdf
  import opened Pcr
  import opened PublicArea
  import opened Policy
  import opened OuterWrap
  import opened Duplication
  import opened Attest
  import opened Transport
  import opened Commands
  import opened RefTpm

  // ---------------------------------------------------------------------
  // The digest of a list of assertions
  // ---------------------------------------------------------------------

  function Fold(c: Suite, history: seq<Assertion>): (d: Digest)
    ensures |d| == 32
  {
    if history == [] then Zeros(32)
    else Extend(c, Fold(c, history[..|history| - 1]), history[|history| - 1])
  }

  lemma FoldAppend(c: Suite, history: seq<Assertion>, a: Assertion)
    ensures Fold(c, history + [a]) == Extend(c, Fold(c, history), a)
  {
    assert (history + [a])[..|history|] == history;
  }

  /** The message whose hash is the fold of a non-empty history. */
  function LastMessage(c: Suite, history: seq<Assertion>): Bytes
    requires history != []
  {
    var start := Fold(c, history[..|history| - 1]);
    match history[|history| - 1]
    case PcrAsserted(sel, values) => PcrMessage(start, sel, c.Sha(values))
    case SecretAsserted(entity, policyRef) => c.Sha(SecretMessage(start, entity)) + policyRef
  }

  lemma FoldIsHash(c: Suite, history: seq<Assertion>)
    requires history != []
    ensures Fold(c, history) == c.Sha(LastMessage(c, history))
  {
    hide PcrMessage, SecretMessage;
  }

  /** The message whose hash is the sealed-to digest. */
  function SealedMessage(c: Suite, sel: seq<PCRSelection>, vals: seq<Bytes>): Bytes {
    PcrMessage(Zeros(32), sel, c.Sha(Concat(vals)))
  }

  /**
    The explicit failures of SHA-256 that would let another history reach the
    sealed-to digest: a collision of two given messages, or a given message that
    hashes to the all-zero digest a session starts from.
   */
  predicate HashFailure(c: Suite, history: seq<Assertion>, sel: seq<PCRSelection>, vals: seq<Bytes>) {
    if history == [] then c.ZeroPreimage(SealedMessage(c, sel, vals))
    else
      var before := history[..|history| - 1];
      || c.ShaCollision(LastMessage(c, history), SealedMessage(c, sel, vals))
      || (before != [] && c.ZeroPreimage(LastMessage(c, before)))
      || (match history[|history| - 1]
          case PcrAsserted(_, values) => c.ShaCollision(values, Concat(vals))
          case SecretAsserted(entity, _) => c.ZeroPreimage(SecretMessage(Fold(c, before), entity)))
  }

  /** Exactly one PolicyPCR, over the sealed-to selection, that read the sealed-to values. */
  predicate SawSealedValues(history: seq<Assertion>, sel: seq<PCRSelection>, vals: seq<Bytes>) {
    && |history| == 1 && history[0].PcrAsserted?
    && NormalList(history[0].sel) == NormalList(sel)
    && history[0].values == Concat(vals)
  }

  lemma SamePcrMessage(c: Suite, history: seq<Assertion>, sel: seq<PCRSelection>, vals: seq<Bytes>)
    requires history != [] && history[|history| - 1].PcrAsserted?
    requires LastMessage(c, history) == SealedMessage(c, sel, vals)
    ensures SawSealedValues(history, sel, vals) || HashFailure(c, history, sel, vals)
  {
    var before, last := history[..|history| - 1], history[|history| - 1];
    hide PcrMessage, NormalList, SecretMessage;
    PcrMessageInjective(Fold(c, before), last.sel, c.Sha(last.values), Zeros(32), sel, c.Sha(Concat(vals)));
    if before != [] {
      FoldIsHash(c, before);
    }
  }

  lemma SameSecretMessage(c: Suite, history: seq<Assertion>, sel: seq<PCRSelection>, vals: seq<Bytes>)
    requires history != [] && history[|history| - 1].SecretAsserted?
    requires LastMessage(c, history) == SealedMessage(c, sel, vals)
    ensures HashFailure(c, history, sel, vals)
  {
    var before, last := history[..|history| - 1], history[|history| - 1];
    var inner := SecretMessage(Fold(c, before), last.entity);
    var rest := BE32(CC_POLICY_PCR) + (MarshalList(sel) + c.Sha(Concat(vals)));
    assert SealedMessage(c, sel, vals) == Zeros(32) + rest;
    hide *;
    SplitEqual(c.Sha(inner), last.policyRef, Zeros(32), rest);
  }

  /** Only the sealed-to assertion reaches the sealed-to digest, unless SHA-256 fails explicitly. */
  lemma DigestMeans(c: Suite, history: seq<Assertion>, sel: seq<PCRSelection>, vals: seq<Bytes>)
    requires Fold(c, history) == PolicyPCRDigestSpec(c, sel, vals)
    ensures SawSealedValues(history, sel, vals) || HashFailure(c, history, sel, vals)
  {
    hide PcrMessage, NormalList, SecretMessage;
    if history != [] {
      FoldIsHash(c, history);
      if LastMessage(c, history) == SealedMessage(c, sel, vals) {
        if history[|history| - 1].PcrAsserted? {
          SamePcrMessage(c, history, sel, vals);
        } else {
          SameSecretMessage(c, history, sel, vals);
        }
      }
    }
  }

  // ---------------------------------------------------------------------
  // What every command keeps
  // ---------------------------------------------------------------------

  predicate StillReads(banks: map<U16, seq<Bytes>>, a: Assertion) {
    a.PcrAsserted? ==> SelectedValues(banks, a.sel).Ok? && Concat(SelectedValues(banks, a.sel).value) == a.values
  }

  /** The digest is the fold of the session's assertions, and what it read is current while its counter is. */
  ghost predicate GoodSession(c: Suite, st: Tpm, s: Session) {
    && s.policyDigest == Fold(c, s.history)
    && (s.pcrCounter.None? ==> forall a :: a in s.history ==> !a.PcrAsserted?)
    && (s.pcrCounter.Some? ==> s.pcrCounter.value <= st.pcrCounter)
    && (s.pcrCounter == Some(st.pcrCounter) ==> forall a :: a in s.history ==> StillReads(st.banks, a))
  }

  /** A sealed object's attributes and policy are those of its public area, and the areas are bound. */
  predicate GoodObject(c: Suite, o: Object) {
    o.secret.SealedData? ==>
      && TakeSealed(o.area).Ok?
      && TakeSealed(o.area).value.0.attributes == o.attributes
      && TakeSealed(o.area).value.0.policy == o.authPolicy
      && TakeSealed(o.area).value.0.unique == UniqueOf(c, o.secret.sensitive.seedValue, o.secret.sensitive.data)
      && |o.secret.sensitive.seedValue| == 32
  }

  ghost predicate Inv(c: Suite, st: Tpm) {
    && (forall h :: h in st.sessions ==> GoodSession(c, st, st.sessions[h]))
    && (forall h :: h in st.objects ==> GoodObject(c, st.objects[h]))
    && (forall h :: h in st.objects ==> h < TRANSIENT_BASE + st.objectCount)
    && (forall h :: h in st.sessions ==> SESSION_BASE <= h < SESSION_BASE + st.sessionCount)
    && st.objectCount <= HANDLE_SPACE && st.sessionCount <= HANDLE_SPACE
  }

  /** A TPM that holds keys but no sessions and no sealed objects starts out good. */
  lemma FreshTpm(c: Suite, st: Tpm)
    requires st.sessions == map[] && st.sessionCount == 0 && st.objectCount <= HANDLE_SPACE
    requires forall h :: h in st.objects ==> h < TRANSIENT_BASE + st.objectCount && st.objects[h].secret.PrivateKey?
    ensures Inv(c, st)
  {
  }

  lemma PcrExtendKeeps(c: Suite, st: Tpm, pcr: U32, auths: seq<AuthCommand>, hash: U16, digest: Bytes)
    requires Inv(c, st) && DoPcrExtend(c, st, pcr, auths, hash, digest).Ok?
    ensures Inv(c, DoPcrExtend(c, st, pcr, auths, hash, digest).value.0)
  {
    hide Fold, StillReads, GoodObject;
  }

  lemma LoadedIsGood(c: Suite, key: Object, inPrivate: Bytes, inPublic: Bytes)
    requires key.secret.PrivateKey? && LoadedObject(c, key, inPrivate, inPublic).Ok?
    ensures GoodObject(c, LoadedObject(c, key, inPrivate, inPublic).value)
  {
    hide TakeSealed, Open, TakeSensitive, UniqueOf, NameOf;
  }

  /** The state with one more object, at the next transient handle. */
  function WithObject(st: Tpm, o: Object): Tpm
    requires st.objectCount < HANDLE_SPACE
  {
    st.(objects := st.objects[TRANSIENT_BASE + st.objectCount := o], objectCount := st.objectCount + 1)
  }

  lemma WithObjectKeeps(c: Suite, st: Tpm, o: Object)
    requires Inv(c, st) && st.objectCount < HANDLE_SPACE && GoodObject(c, o)
    ensures Inv(c, WithObject(st, o))
  {
    hide Fold, StillReads, GoodObject;
    var next := WithObject(st, o);
    assert forall h :: h in st.sessions ==> GoodSession(c, st, st.sessions[h]) && GoodSession(c, next, st.sessions[h]);
  }

  lemma LoadKeeps(c: Suite, st: Tpm, parent: U32, auths: seq<AuthCommand>, inPrivate: Bytes, inPublic: Bytes)
    requires Inv(c, st) && DoLoad(c, st, parent, auths, inPrivate, inPublic).Ok?
    ensures Inv(c, DoLoad(c, st, parent, auths, inPrivate, inPublic).value.0)
  {
    hide Inv, GoodObject, LoadedObject, ParentKey, BE32, TPM2B, NameOf;
    var key := ParentKey(st, parent, auths).value;
    LoadedIsGood(c, key, inPrivate, inPublic);
    WithObjectKeeps(c, st, LoadedObject(c, key, inPrivate, inPublic).value);
  }

  lemma StartKeeps(c: Suite, st: Tpm)
    requires Inv(c, st) && DoStartAuthSession(c, st).Ok?
    ensures Inv(c, DoStartAuthSession(c, st).value.0)
  {
    hide StillReads, GoodObject, BE32, TPM2B;
    assert Fold(c, []) == Zeros(32);
    hide Fold;
    var next := DoStartAuthSession(c, st).value.0;
    assert GoodSession(c, next, FreshSession());
    assert forall h :: h in st.sessions ==> GoodSession(c, next, st.sessions[h]);
  }

  /** Replacing one session by a good one keeps the invariant. */
  lemma SessionUpdateKeeps(c: Suite, st: Tpm, h: U32, s: Session)
    requires Inv(c, st) && h in st.sessions && GoodSession(c, st, s)
    ensures Inv(c, st.(sessions := st.sessions[h := s]))
  {
    hide Fold, StillReads, GoodObject;
    var next := st.(sessions := st.sessions[h := s]);
    forall i | i in next.sessions
      ensures GoodSession(c, next, next.sessions[i])
    {
    }
  }

  lemma PolicyPCRKeeps(c: Suite, st: Tpm, h: U32, pcrDigest: Bytes, sel: seq<PCRSelection>)
    requires Inv(c, st) && DoPolicyPCR(c, st, h, pcrDigest, sel).Ok?
    ensures Inv(c, DoPolicyPCR(c, st, h, pcrDigest, sel).value.0)
  {
    var s := st.sessions[h];
    var values := Concat(SelectedValues(st.banks, sel).value);
    var asserted := PcrAsserted(sel, values);
    var next := Session(Extend(c, s.policyDigest, asserted), Some(st.pcrCounter), s.history + [asserted]);
    assert StillReads(st.banks, asserted);
    assert DoPolicyPCR(c, st, h, pcrDigest, sel).value.0 == st.(sessions := st.sessions[h := next]);
    FoldAppend(c, s.history, asserted);
    hide Fold, GoodObject, SelectedValues, Extend, DoPolicyPCR;
    assert GoodSession(c, st, next);
    SessionUpdateKeeps(c, st, h, next);
  }

  lemma PolicySecretKeeps(c: Suite, st: Tpm, authHandle: U32, h: U32, auths: seq<AuthCommand>, policyRef: Bytes)
    requires Inv(c, st) && DoPolicySecret(c, st, authHandle, h, auths, policyRef).Ok?
    ensures Inv(c, DoPolicySecret(c, st, authHandle, h, auths, policyRef).value.0)
  {
    var s := st.sessions[h];
    var asserted := SecretAsserted(BE32(authHandle), policyRef);
    var next := s.(policyDigest := Extend(c, s.policyDigest, asserted), history := s.history + [asserted]);
    assert StillReads(st.banks, asserted);
    assert DoPolicySecret(c, st, authHandle, h, auths, policyRef).value.0 == st.(sessions := st.sessions[h := next]);
    FoldAppend(c, s.history, asserted);
    hide Fold, GoodObject, SelectedValues, Extend, DoPolicySecret, BE32, StillReads;
    assert GoodSession(c, st, next);
    SessionUpdateKeeps(c, st, h, next);
  }

  lemma AuthorizeKeeps(c: Suite, st: Tpm, o: Object, a: AuthCommand)
    requires Inv(c, st) && Authorize(st, o, a).Ok?
    ensures Inv(c, Authorize(st, o, a).value)
  {
    assert Fold(c, []) == Zeros(32);
    hide Fold, StillReads, GoodObject;
    if a.handle != RS_PW {
      if a.attributes % 2 == 1 {
        SessionUpdateKeeps(c, st, a.handle, FreshSession());
      } else {
        var next := st.(sessions := st.sessions - {a.handle});
        assert forall i :: i in next.sessions ==> GoodSession(c, st, st.sessions[i]) && GoodSession(c, next, next.sessions[i]);
      }
    }
  }

  /** Every command the TPM accepts keeps the invariant. */
  lemma ExecKeeps(c: Suite, st: Tpm, cmd: Command)
    requires Inv(c, st) && Exec(c, st, cmd).Ok?
    ensures Inv(c, Exec(c, st, cmd).value.0)
  {
    hide Fold, StillReads, GoodObject, GoodSession, Authorize, ParentKey, LoadedObject, ImportedSensitive, TPM2B, BE32, PutSensitive, PutSealed;
    hide Unwrap, ObjectName, Open, NameOf, Attested, PutQuoted, SignatureBy, SelectedValues, DoLoad, DoPcrExtend, DoStartAuthSession, DoPolicyPCR, DoPolicySecret;
    match cmd
    case PcrExtend(pcr, auths, hash, digest) => PcrExtendKeeps(c, st, pcr, auths, hash, digest);
    case Load(parent, auths, inPrivate, inPublic) => LoadKeeps(c, st, parent, auths, inPrivate, inPublic);
    case StartAuthSession(_) => StartKeeps(c, st);
    case PolicyPCR(session, pcrDigest, sel) => PolicyPCRKeeps(c, st, session, pcrDigest, sel);
    case PolicySecret(authHandle, session, auths, policyRef) => PolicySecretKeeps(c, st, authHandle, session, auths, policyRef);
    case Unseal(item, auths) => AuthorizeKeeps(c, st, st.objects[item], auths[0]);
    case ActivateCredential(_, key, auths, _, _) => AuthorizeKeeps(c, st, st.objects[key], auths[1]);
    case Create(parent, auths, userAuth, data, area) => CreateKeeps(c, st, parent, auths, userAuth, data, area);
    case Import(_, _, _, _, _) =>
    case Quote(_, _, _, _) =>
  }

  lemma DrawsOnly(c: Suite, st: Tpm, parent: U32, auths: seq<AuthCommand>, userAuth: Bytes, data: Bytes, template: Bytes)
    requires DoCreate(c, st, parent, auths, userAuth, data, template).Ok?
    ensures DoCreate(c, st, parent, auths, userAuth, data, template).value.0 == st.(draws := st.draws + 1)
  {
    hide ParentKey, SealedPublic, PutSensitive, PutSealed, PrivateBlob, TPM2B, BE32;
  }

  lemma CreateKeeps(c: Suite, st: Tpm, parent: U32, auths: seq<AuthCommand>, userAuth: Bytes, data: Bytes, template: Bytes)
    requires Inv(c, st) && DoCreate(c, st, parent, auths, userAuth, data, template).Ok?
    ensures Inv(c, DoCreate(c, st, parent, auths, userAuth, data, template).value.0)
  {
    var next := DoCreate(c, st, parent, auths, userAuth, data, template).value.0;
    DrawsOnly(c, st, parent, auths, userAuth, data, template);
    hide DoCreate, Fold, StillReads, GoodObject;
    assert forall h :: h in st.sessions ==> GoodSession(c, next, st.sessions[h]);
  }

  /** The TPM after a whole run of command buffers, each arbitrary. */
  function Run(c: Suite, st: Tpm, buffers: seq<Bytes>): Tpm
    decreases |buffers|
  {
    hide RefStep;
    if buffers == [] then st else Run(c, RefStep(c, st, buffers[0]).0, buffers[1..])
  }

  lemma StepKeeps(c: Suite, st: Tpm, buffer: Bytes)
    requires Inv(c, st)
    ensures Inv(c, RefStep(c, st, buffer).0)
  {
    hide Inv, Exec, Decode, Frame;
    if Decode(buffer).Ok? && Exec(c, st, Decode(buffer).value).Ok? {
      ExecKeeps(c, st, Decode(buffer).value);
    }
  }

  lemma {:induction false} RunKeeps(c: Suite, st: Tpm, buffers: seq<Bytes>)
    requires Inv(c, st)
    ensures Inv(c, Run(c, st, buffers))
    decreases |buffers|
  {
    hide Inv, RefStep;
    if buffers != [] {
      StepKeeps(c, st, buffers[0]);
      RunKeeps(c, RefStep(c, st, buffers[0]).0, buffers[1..]);
    }
  }

  // ---------------------------------------------------------------------
  // Unsealing
  // ---------------------------------------------------------------------

  /** An object sealed to these PCRs: its policy is their digest and a password cannot use it. */
  predicate SealedTo(c: Suite, o: Object, sel: seq<PCRSelection>, vals: seq<Bytes>) {
    && o.secret.SealedData?
    && TakeSealed(o.area).Ok?
    && TakeSealed(o.area).value.0.policy == PolicyPCRDigestSpec(c, sel, vals)
    && !HasAttribute(TakeSealed(o.area).value.0.attributes, USER_WITH_AUTH)
  }

  /** The PCRs of `history` now hold the sealed-to values. */
  predicate LiveValuesAre(st: Tpm, history: seq<Assertion>, vals: seq<Bytes>) {
    && |history| == 1 && history[0].PcrAsserted?
    && SelectedValues(st.banks, history[0].sel).Ok?
    && Concat(SelectedValues(st.banks, history[0].sel).value) == Concat(vals)
  }

  lemma GoodUnseal(c: Suite, st: Tpm, item: U32, auths: seq<AuthCommand>, sel: seq<PCRSelection>, vals: seq<Bytes>)
    requires Inv(c, st)
    requires item in st.objects && SealedTo(c, st.objects[item], sel, vals)
    requires DoUnseal(st, item, auths).Ok?
    ensures |auths| == 1 && auths[0].handle in st.sessions
    ensures var history := st.sessions[auths[0].handle].history;
            || (SawSealedValues(history, sel, vals) && LiveValuesAre(st, history, vals))
            || HashFailure(c, history, sel, vals)
  {
    var o := st.objects[item];
    assert GoodObject(c, o);
    assert !PasswordAuthorizes(o, auths[0]);
    hide TakeSealed, PolicyPCRDigestSpec, HasAttribute, TPM2B, BE32, Fold, NormalList, HashFailure;
    var s := st.sessions[auths[0].handle];
    assert GoodSession(c, st, s);
    DigestMeans(c, s.history, sel, vals);
    if SawSealedValues(s.history, sel, vals) {
      assert s.history[0] in s.history;
    }
  }

  /**
    Whatever bytes were sent before, in whatever order: when Unseal of a
    PCR-sealed object succeeds, its authorizing session ran PolicyPCR once, over
    the sealed-to selection, read the sealed-to values, and the PCRs still hold
    them; or SHA-256 fails on messages the session's history spells out.
   */
  lemma UnsealSafety(c: Suite, start: Tpm, buffers: seq<Bytes>, st: Tpm, item: U32, auths: seq<AuthCommand>, sel: seq<PCRSelection>, vals: seq<Bytes>)
    requires Inv(c, start) && st == Run(c, start, buffers)
    requires item in st.objects && SealedTo(c, st.objects[item], sel, vals)
    requires Exec(c, st, Unseal(item, auths)).Ok?
    ensures |auths| == 1 && auths[0].handle in st.sessions
    ensures var history := st.sessions[auths[0].handle].history;
            || (SawSealedValues(history, sel, vals) && LiveValuesAre(st, history, vals))
            || HashFailure(c, history, sel, vals)
  {
    hide Run, Inv, SealedTo, DoUnseal, SawSealedValues, LiveValuesAre, HashFailure;
    RunKeeps(c, start, buffers);
    GoodUnseal(c, st, item, auths, sel, vals);
  }

  lemma SealedAreaIsSealed(c: Suite, o: Object, a: SealedArea, sel: seq<PCRSelection>, vals: seq<Bytes>)
    requires o.secret.SealedData? && Fits(a.unique) && Fits(a.policy) && o.area == PutSealed(a, [])
    requires a.policy == PolicyPCRDigestSpec(c, sel, vals) && !HasAttribute(a.attributes, USER_WITH_AUTH)
    ensures SealedTo(c, o, sel, vals)
  {
    TakeSealedPut(a, []);
    hide TakeSealed, PutSealed, PolicyPCRDigestSpec, HasAttribute;
  }

  /** Both kinds of sealed object this package builds are PCR-sealed in that sense. */
  lemma BothSealsAreSealed(c: Suite, o: Object, sel: seq<PCRSelection>, vals: seq<Bytes>, unique: Bytes)
    requires o.secret.SealedData? && Fits(unique)
    requires var policy := PolicyPCRDigestSpec(c, sel, vals);
             o.area == PutSealed(SealArea(policy).(unique := unique), []) || o.area == PutSealed(ImportSealArea(policy, unique), [])
    ensures SealedTo(c, o, sel, vals)
  {
    var policy := PolicyPCRDigestSpec(c, sel, vals);
    assert !HasAttribute(SEAL_ATTRIBUTES, USER_WITH_AUTH) && !HasAttribute(IMPORT_SEAL_ATTRIBUTES, USER_WITH_AUTH);
    hide PutSealed, PolicyPCRDigestSpec, SealedTo, HasAttribute;
    if o.area == PutSealed(ImportSealArea(policy, unique), []) {
      SealedAreaIsSealed(c, o, ImportSealArea(policy, unique), sel, vals);
    } else {
      SealedAreaIsSealed(c, o, SealArea(policy).(unique := unique), sel, vals);
    }
  }

  // ---------------------------------------------------------------------
  // A public area fixes the secret
  // ---------------------------------------------------------------------

  lemma GoodObjectData(c: Suite, o: Object, obfuscation: Digest, secret: Bytes, policyDigest: Digest)
    requires GoodObject(c, o) && o.secret.SealedData? && o.area == ImportArea(c, obfuscation, secret, policyDigest)
    ensures var s := o.secret.sensitive;
            s.data == secret || c.ShaCollision(s.seedValue + s.data, obfuscation + secret)
  {
    TakeSealedPut(ImportSealArea(policyDigest, UniqueOf(c, obfuscation, secret)), []);
    hide TakeSealed, PutSealed;
    var s := o.secret.sensitive;
    if s.seedValue + s.data == obfuscation + secret {
      SplitEqual(s.seedValue, s.data, obfuscation, secret);
    }
  }

  /**
    However it got there: a loaded object that shows WrapToPCR's public area holds
    the wrapped secret, or SHA-256 collides on the two (seedValue, data) pairs.
   */
  lemma WrappedAreaFixesSecret(c: Suite, start: Tpm, buffers: seq<Bytes>, st: Tpm, item: U32,
                               obfuscation: Digest, secret: Bytes, policyDigest: Digest)
    requires Inv(c, start) && st == Run(c, start, buffers)
    requires item in st.objects && st.objects[item].secret.SealedData?
    requires st.objects[item].area == ImportArea(c, obfuscation, secret, policyDigest)
    ensures var s := st.objects[item].secret.sensitive;
            s.data == secret || c.ShaCollision(s.seedValue + s.data, obfuscation + secret)
  {
    RunKeeps(c, start, buffers);
    hide Run, GoodSession, GoodObject, ImportArea;
    assert GoodObject(c, st.objects[item]);
    GoodObjectData(c, st.objects[item], obfuscation, secret, policyDigest);
  }

  // ---------------------------------------------------------------------
  // Blobs stay with their public area
  // ---------------------------------------------------------------------

  /** Load accepts an honest private blob with its own public area only, barring an explicit collision. */
  lemma LoadKeepsArea(c: Suite, key: Object, area: Bytes, sensitive: Bytes, area': Bytes)
    requires key.secret.PrivateKey? && Wrappable(sensitive)
    requires LoadedObject(c, key, PrivateBlob(c, key.secret.protectionSeed, area, sensitive), area').Ok?
    ensures var seed := key.secret.protectionSeed;
            var enc := Encipher(c, seed, NameOf(c, area), sensitive);
            || area' == area
            || c.ShaCollision(area, area')
            || c.MacCollision(IntegrityKey(c, seed), enc + NameOf(c, area), enc + NameOf(c, area'))
  {
    var seed := key.secret.protectionSeed;
    hide Encipher, IntegrityKey, NameOf, Seal, Open, TakeSensitive, TakeSealed;
    SealNamesOne(c, seed, NameOf(c, area), sensitive, NameOf(c, area'));
    if NameOf(c, area') == NameOf(c, area) {
      NameBinding(c, area, area');
    }
  }

  /** So does Import with the duplication blob WrapToPCR made for this parent. */
  lemma ImportKeepsArea(c: Suite, key: Object, s: nat, area: Bytes, sensitive: Bytes, area': Bytes)
    requires c.Lawful() && key.secret.PrivateKey? && c.IsScalar(s) && c.IsScalar(key.secret.d) && Wrappable(sensitive)
    requires var seed := SenderSeed(c, LABEL_DUPLICATE, s, c.Public(key.secret.d));
             ImportedSensitive(c, key, area', Seal(c, seed, NameOf(c, area), sensitive), PutPoint(FixedPoint(c.Public(s)), [])).Ok?
    ensures var seed := SenderSeed(c, LABEL_DUPLICATE, s, c.Public(key.secret.d));
            var enc := Encipher(c, seed, NameOf(c, area), sensitive);
            || area' == area
            || c.ShaCollision(area, area')
            || c.MacCollision(IntegrityKey(c, seed), enc + NameOf(c, area), enc + NameOf(c, area'))
  {
    var seed := SenderSeed(c, LABEL_DUPLICATE, s, c.Public(key.secret.d));
    UnwrapReaches(c, LABEL_DUPLICATE, s, key.secret.d, NameOf(c, area'), Seal(c, seed, NameOf(c, area), sensitive));
    hide Encipher, IntegrityKey, NameOf, Seal, Open, TakeSensitive, TakeSealed, Unwrap, SenderSeed, PutPoint, FixedPoint;
    SealNamesOne(c, seed, NameOf(c, area), sensitive, NameOf(c, area'));
    if NameOf(c, area') == NameOf(c, area) {
      NameBinding(c, area, area');
    }
  }
}
