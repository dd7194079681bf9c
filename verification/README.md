# A verified model of the tpm2 command layer

The Go package `tpm2` builds TPM 2.0 commands, parses the replies, and carries the protocols on top of them: sealing
a secret to PCR values, wrapping one for a remote node without a TPM (duplication), credential activation, and quotes.
This project models that package in Dafny and proves what the protocols are for.

How it is put together:

- `Wire`, `Bits`: big-endian integers, TPM2B, the command frame; octet operators defined bit by bit.
- `Crypto`: SHA-256, HMAC, the AES block function, P-256 and ECDSA as the fields of a `Suite`, any functions at all.
  `Lawful` and `LawfulSignatures` list what is assumed: points on the curve have coordinates below 2^256, public keys
  are on it, ECDH commutes, an honest signature verifies. No hash is assumed injective. A result that rests on collision
  resistance is a disjunction that names the two messages that collide when it fails.
- `Pcr`, `Kdf`, `Cfb`, `PublicArea`, `Policy`, `OuterWrap`, `Credential`, `Duplication`, `Attest`, `Nv`, `Capability`:
  one module per source file or shared construction. Loops and cursor walks are methods with invariants, proved equal
  to a specification function; the properties are lemmas about that function.
- `Transport`, `Commands`, `Client`: the retry loop, the command bodies, and the class `TPM` whose methods issue them
  over any transport. Each method's contract gives its result and the transport's next state.
- `RefTpm`: a reference TPM after Part 3 of the TCG TPM 2.0 Library (the clauses TPM2_PCR_Extend, TPM2_Create, TPM2_Load,
  TPM2_Import, TPM2_StartAuthSession, TPM2_PolicyPCR, TPM2_PolicySecret, TPM2_Unseal, TPM2_ActivateCredential,
  TPM2_Quote). It decodes the bytes the client emits and answers bytes the client parses.
- `Octets`: every command buffer written out octet by octet. With the lemmas named `...Octets` in the other modules it
  fixes the values themselves, not only that sender and receiver agree on them.
- `Safety`: what every sequence of command buffers keeps, and what a successful Unseal implies.
- `Flows`: the client flows run against the reference TPM, end to end.

Where to start reading: `Flows.ImportAndUnsealReturnsSecret`, `Flows.UnsealWithPCRReturnsSecret`,
`Flows.ActivationReturnsCredential`, `Flows.QuoteVerifies`, `Flows.ExtendingLocks`, `Safety.UnsealSafety`,
`Transport.AttemptsDecided`.

Where the source's words and its code differ: the comment at tpm.go:96-104 puts the total backoff at about a quarter of
a second. The code waits at most 2 * (2^6 - 1) = 126 ms (`Transport.BackoffBounded`).

`dafny verify dfyconfig.toml` checks the whole project.

## Model

| member | source | states |
|---|---|---|
| Wire.UnmarshalMarshal | nv.go:119-122 | a TPM2B followed by anything is read back to its payload and the rest |
| Wire.MarshalUnmarshal | nv.go:119-122 | whatever a TPM2B read accepts is the marshalled payload followed by the rest |
| Wire.ParseFramed | tpm.go:56-68 | a frame's tag, code and parameters are read back from it, and its size field is the frame's length modulo 2^32 |
| Wire.BE32Octets | doc.go:16-17 | 32-bit fields go out most significant octet first |
| Wire.BE16Octets | doc.go:16-17 | so do 16-bit fields |
| Wire.TPM2BOctets | attest.go:119-128 | a TPM2B is the two octets of its length, then the payload |
| Crypto.LawsHaveAModel | makecred.go:113-129 | the laws assumed of the curve and the signature scheme are consistent: some suite satisfies them all |
| Pcr.Bitmap | pcr.go:33-42 | ORing bits into the array gives the bitmap in which bit n is set exactly when n is in the list; indices outside 0..23 are ignored |
| Pcr.BitmapOfSelected | pcr.go:28-42 | bit i of the bitmap says whether PCR i is in the list |
| Pcr.MarshalListOctets | pcr.go:59-77 | the list octet by octet: count, then for each bank its id, the octet 3 and a bitmap whose octet p / 8 has weight 2^(p mod 8) exactly for its PCRs p |
| Pcr.PcrsFromBitmap | pcr.go:47-57 | the nested loops return the selected indices in ascending order |
| Pcr.InRangeMeaning | pcr.go:28-42 | the normal form of a PCR list has exactly its members in 0..23, strictly ascending |
| Pcr.SelectedIsInRange | pcr.go:44-57 | expanding a list's bitmap gives the list's normal form |
| Pcr.BitmapOfSelectedFrom | pcr.go:44-57 | the bitmap of an expanded three-octet bitmap is that bitmap |
| Pcr.MarshalPCRSelectionList | pcr.go:69-77 | the loop emits the counted list of six-octet entries |
| Pcr.ParsePCRSelectionList | pcr.go:82-109 | the cursor walk is the list grammar on every input, never out of range, ending by the input's length whatever the count says |
| Pcr.ParseMarshalled | pcr.go:69-109 | parsing a marshalled list gives its normal form and the tail untouched; lists of 2^32 or more are cut at the wrapped count |
| Pcr.ParseMarshalledWhole | pcr.go:69-109 | below 2^32 banks nothing is cut |
| Pcr.MarshalNormal | pcr.go:69-77 | marshalling the normal form reproduces the bytes |
| Pcr.MarshalListInjective | pcr.go:69-77 | two lists marshal to the same bytes if and only if their normal forms agree |
| Pcr.MarshalParsed | pcr.go:82-109 | re-marshalling a parsed list reproduces its bytes if and only if every sizeofSelect was 3 |
| Pcr.ParseListConsumes | pcr.go:82-109 | a successful parse of n entries has consumed at least 4 + 3n octets |
| Kdf.KDFa | kdf.go:55-77 | the HMAC counter loop ends and returns the bit-masked prefix of the block stream, counter wrapping included |
| Kdf.KDFe | kdf.go:100-119 | the hash counter loop ends and returns the bit-masked prefix of the block stream |
| Kdf.KDFaBit | kdf.go:55-77 | every bit of the result from HMAC alone: block j / 32 + 1 over counter, label with exactly one NUL, contextU, contextV, bit length; zero behind the last bit asked for |
| Kdf.KDFeBit | kdf.go:100-119 | every bit of the result from SHA-256 alone: block j / 32 + 1 over counter, Z, label with exactly one NUL, partyU, partyV; zero behind the last bit asked for |
| Kdf.KDFaOctet | kdf.go:61-70 | the same octet by octet for whole octets |
| Kdf.KDFeOctet | kdf.go:105-114 | the same octet by octet for whole octets |
| Kdf.DerivedBit | kdf.go:49-75 | counted from the top, the first `bits` bits are the stream's and every later bit of the last octet is zero |
| Kdf.OneBlock | makecred.go:136-140 | a 256-bit derivation is its first block and a 128-bit one is its first 16 octets, a valid AES-128 key |
| Kdf.KDFePrefix | kdf.go:100-119 | a byte-aligned KDFe output is a prefix of every longer byte-aligned one |
| Kdf.KdfaInputInjective | kdf.go:61-68 | with NUL-free labels, equal KDFa block inputs have equal counter, label, joined context and bit length |
| Kdf.KdfeInputInjective | kdf.go:105-111 | with 32-octet Z and party fields, equal KDFe block inputs have every field equal |
| Kdf.WrapDerivationsSeparate | makecred.go:57-64 | STORAGE and INTEGRITY keys never MAC one message, IDENTITY and DUPLICATE seeds never hash one |
| Cfb.DecryptEncrypt | makecred.go:174-180 | CFB decryption inverts encryption at every length, a partial last block included |
| Cfb.EncryptDecrypt | makecred.go:174-180 | and encryption inverts decryption, so the cipher is a bijection on each length |
| Cfb.CiphertextOctet | makecred.go:174-180 | every ciphertext octet is the plaintext octet XORed with the AES image of the previous ciphertext block, of sixteen zero octets at first |
| Cfb.LeftPad | makecred.go:185-194 | the result has n octets and the value of the input modulo 256^n |
| Cfb.LeadingZeros | makecred.go:182-194 | leading zero octets do not change a number's value, hence nothing leftPad returns |
| PublicArea.ParseTPMTPublicECCPoint | attest.go:203-291 | the cursor walk returns what the grammar's decoder returns, on every input |
| PublicArea.ParseParms | attest.go:228-276 | the walk over the curve parameters ends behind their optional details, or reports a short buffer exactly when the grammar does |
| PublicArea.PointInGrammar | attest.go:197-291 | the parser returns p if and only if the input is a grammatical area with point p followed by anything |
| PublicArea.PointInTotal | attest.go:203-291 | the only error is a short buffer |
| PublicArea.MarshalECCAKPublic | attest.go:151-167 | the octets written are the AK area of the grammar with an empty point, size-prefixed |
| PublicArea.TemplatesParse | attest.go:130-167 | any point filled into the AK, storage (seal.go:217-235) or EK (ek.go:96-114) template is read back |
| PublicArea.TakeSealedPut | seal.go:262-271 | a keyed-hash area is read back field by field from its encoding |
| PublicArea.TakeSensitivePut | import.go:302-309 | a keyed-hash sensitive area is read back from its encoding |
| PublicArea.SealPublicOctets | seal.go:262-271 | Create's template octet by octet |
| PublicArea.ImportSealPublicOctets | import.go:264-273 | the wrapped object's area octet by octet |
| PublicArea.SealSensitiveOctets | import.go:302-309 | its sensitive area octet by octet |
| PublicArea.AkTemplateOctets | attest.go:151-167 | the AK template octet by octet |
| PublicArea.StorageTemplateOctets | seal.go:217-235 | the storage template octet by octet |
| PublicArea.EkTemplateOctets | ek.go:96-114 | the EK template octet by octet |
| PublicArea.NameBinding | name.go:34-46 | equal Names mean equal public areas, or SHA-256 collides on the two areas |
| PublicArea.SealedName | import.go:280-284 | ObjectName accepts every area with the SHA-256 nameAlg and gives the Name import.go computes directly |
| PublicArea.ObjectNameOctets | name.go:34-46 | ObjectName is 00 0B and the area's digest if and only if octets 2 and 3 are 00 0B; a short buffer below four octets, an unsupported nameAlg otherwise |
| Policy.PolicyPCRDigest | seal.go:117-132 | the two streaming hashes compute SHA-256 of 32 zero octets, 00 00 01 7F, the selection list and the digest of the values, in that order |
| Policy.PolicyPCRDigestOctets | seal.go:100-131 | the same equation for the function the other results speak of |
| Policy.PcrMessageInjective | seal.go:125-131 | a policy message determines the old digest, the normal form of the selection and the PCR digest |
| Policy.ExtendPcrBinding | seal.go:105-131 | equal updates have equal old digests, selections and values, or one of two shown pairs collides |
| Policy.PolicyPCRDigestBinding | seal.go:117-132 | equal policy digests mean the same banks with the same in-range PCR sets and the same concatenated values, or one of two shown pairs collides |
| Policy.PolicyPCRDigestOfNormal | seal.go:117-132 | the digest depends on nothing but the normal form and the concatenation |
| Policy.ConcatInjective | seal.go:118-122 | values of one positive size are recovered from their concatenation |
| OuterWrap.DeriveSeed | makecred.go:127-136 | the padded ECDH and KDFe steps give the seed of the two points, however their coordinates are encoded |
| OuterWrap.WrapPayload | makecred.go:138-158 | the blob is 00 20, the MAC over ciphertext then Name, the ciphertext; its two keys are spelled out as HMACs, the cipher key over the Name, labels in octets |
| OuterWrap.SealedOctets | import.go:212-232 | the same equation for the blob every wrap result speaks of |
| OuterWrap.SeedOctets | makecred.go:127-136 | the seed is one SHA-256 over counter 1, shared x, label and NUL, ephemeral x, receiver x, each coordinate in 32 octets |
| OuterWrap.SecretOctets | makecred.go:160-163 | the shipped secret is 00 44, then x and y of the ephemeral point, each behind 00 20 |
| OuterWrap.WrapOctets | import.go:199-236 | both blobs, for either label: the payload sealed under that seed, and that secret |
| OuterWrap.OpenSeal | makecred.go:138-158 | the receiver's check, decryption and unwrapping return the payload |
| OuterWrap.OpenBinding | makecred.go:149-153 | ciphertext and 34-octet Name accepted beside an honest MAC are the honest ones, or HMAC collides on the two messages shown |
| OuterWrap.SealNamesOne | import.go:225-229 | an honest blob opens for its own Name only, or HMAC collides |
| OuterWrap.SeedsAgree | makecred.go:127-136 | sender and receiver derive the same seed |
| OuterWrap.UnwrapReaches | makecred.go:161-163 | the shipped point leads the key holder to the sender's seed |
| OuterWrap.UnwrapWrap | import.go:199-236 | the holder of the scalar recovers exactly the wrapped payload, for either label |
| Credential.MakeCredential | makecred.go:107-166 | off-curve keys and rng failures are refused; otherwise both blobs are the outer wrap for the EK, each with one size prefix |
| Credential.CredentialOctets | makecred.go:107-166 | both blobs from the primitives, label in octets; refused exactly when (X, Y) is off the curve |
| Credential.CredentialRoundTrip | makecred.go:98-166 | for every EK scalar, ephemeral scalar, Name and credential the EK holder's inverse accepts and returns the credential |
| Credential.CredentialNamesOneKey | makecred.go:149-153 | another 34-octet AK Name is refused, or HMAC collides on the messages shown |
| Credential.CredentialEncodingIndependent | makecred.go:114-133 | leading zeros in the EK's coordinates change nothing |
| Duplication.WrapToPCR | import.go:138-243 | off-curve keys and rng failures are refused in the code's order; otherwise the three outputs are the public area, the wrapped sensitive area and the ephemeral point |
| Duplication.ImportAreaOctets | import.go:166-186 | the area carries the policy digest and SHA-256 of obfuscation value, then secret |
| Duplication.WrapToPCROctets | import.go:138-243 | all three outputs from the primitives, label in octets; refused exactly when (X, Y) is off the curve |
| Duplication.WrapEncodingIndependent | import.go:145-147 | leading zeros in the storage key's coordinates change nothing |
| Attest.ParseAttest | verify.go:67-118 | the walk accepts and rejects, with the same error, exactly as the attest grammar does |
| Attest.ParseAttestPut | verify.go:51-118 | an attest laid out by a TPM is read back to its nonce, its selection's normal form and its digest |
| Attest.BytesEqual | verify.go:168-178 | true exactly for equal strings |
| Attest.VerifyQuote | verify.go:135-165 | parse, then signature, then digest of the expected values, with that order of errors |
| Attest.SignedQuoteVerifies | verify.go:135-165 | a quote signed by the AK is accepted if and only if the expected values hash to the quoted digest |
| Attest.VerifiedQuoteMeans | verify.go:120-165 | acceptance implies magic, type, a valid signature and the digest; values quoted under that digest are the expected ones or collide with them |
| Attest.ParseCreatePrimaryResponse | attest.go:175-195 | handle and point of the area behind parameterSize, or the first error |
| Attest.CreatePrimaryResponsePut | attest.go:169-195 | an answer holding any grammatical ECC area is read back to its handle and point |
| Attest.ParseQuoteResponsePut | attest.go:352-391 | a TPM's quote response is read back to the attest and the (r, s) pair |
| Attest.OtherSignatureRefused | attest.go:365-372 | the result is ErrUnexpectedSigAlg if and only if the id behind the attest is there and is not 00 18 |
| Attest.QuotedOctets | verify.go:51-66 | the attest a TPM lays out: FF 54 43 47, 80 18, signer, nonce, 25 octets, selection, digest |
| Attest.QuoteResponseOctets | attest.go:347-351 | the quote response it lays out: attest, 00 18, 00 0B, r, s |
| Nv.ParseIsTake | nv.go:106-136 | the fixed-offset parse is the field-by-field one on every input |
| Nv.ParsePut | nv.go:92-136 | parsing a marshalled public area gives it back, and the tail |
| Nv.PutParsed | nv.go:92-136 | re-marshalling any successful parse reproduces exactly the octets consumed |
| Nv.NVPublicRoundTrip | nv.go:92-136 | the size-prefixed form unwraps to octets that parse back |
| Nv.NVPublicOctets | nv.go:81-100 | index, nameAlg, attributes, policy and data size in that order |
| Capability.ParseTaggedProperties | capability.go:120-138 | entry i is the pair at offset 4 + 8i; fails exactly when the reply is shorter than 4 + 8n |
| Capability.ParseAlgProperties | capability.go:165-183 | entry i is the pair at offset 4 + 6i; fails exactly when the reply is shorter than 4 + 6n |
| Capability.ParseHandles | capability.go:196-210 | entry i is the handle at offset 4 + 4i; fails exactly when the reply is shorter than 4 + 4n |
| Capability.CapabilityMemberPut | capability.go:69-83 | the union member is returned if and only if the TPM echoed the selector asked for |
| Capability.TaggedPropertiesPut | capability.go:111-139 | a property list encoded by a TPM is read back, whatever follows |
| Capability.AlgPropertiesPut | capability.go:156-184 | an algorithm list encoded by a TPM is read back, whatever follows |
| Capability.HandlesPut | capability.go:186-211 | so is a handle list |
| Capability.ParseDigests | commands.go:126-142 | the loop reads the counted TPM2B list, ending by the reply's length whatever the count says |
| Capability.TakeDigestsConsumes | commands.go:132-141 | n digests read are n digests returned and at least 2n octets used |
| Capability.ParsePCRReadPut | commands.go:100-143 | a TPM's PCR_Read reply is read back to its counter and digests |
| Capability.PutDigestsAppend | commands.go:132-141 | digests stand in the reply in their order |
| Transport.AttemptsStops | tpm.go:55-88 | execute stops at a reply that is not RC_RETRY or at the seventh, having seen only RC_RETRY before |
| Transport.AttemptsDecided | tpm.go:55-104 | over any transport the number of sends is the one number in 1..7 that the first non-retry reply decides |
| Transport.FirstReplyDecides | tpm.go:68-79 | a first reply that is not RC_RETRY is never followed by a resend |
| Transport.SevenSendsAtMost | tpm.go:55-104 | that number in octets: 1 to 7 sends, all but the last answered by code 00 00 09 22, the last not unless it is the seventh |
| Transport.OutcomeOctets | tpm.go:62-79 | the deciding reply's octets behind the header on code 0, its code as the typed error otherwise, a short buffer below ten octets |
| Transport.BackoffTable | tpm.go:84-104 | the waits sum to 0, 2, 6, 14, 30, 62 and 126 ms |
| Transport.BackoffNext | tpm.go:84-104 | doubling waits sum to 2ms * (2^k - 1) after k retries |
| Transport.BackoffBounded | tpm.go:96-104 | the waits of one command sum to at most 126 ms |
| Transport.Transport.Send | tpm.go:58-61 | one exchange over the transport, logged |
| Client.TPM.Execute | tpm.go:55-88 | result, next transport state, buffers sent (copies of one command) and time waited, all as decided by the replies |
| Commands.MarshalAuthArea | activate.go:74-81 | the loop joins the sessions in order behind their total size |
| Commands.TakeAuthAreaPut | activate.go:68-81 | a TPM reads any list of sessions back in handle order, whatever parameters follow |
| Commands.DecodePCRExtendBody | commands.go:173-191 | the TPM-side decoder recovers PCR, bank and digest |
| Commands.DecodeCreateBody | seal.go:291-302 | the decoder recovers parent, empty userAuth, secret and template |
| Commands.DecodeLoadBody | seal.go:341-349 | the decoder recovers parent and both blobs, one size prefix each |
| Commands.DecodeImportBody | import.go:344-355 | the decoder recovers parent, public area and the two verbatim blobs, one size prefix each, no inner wrap |
| Commands.DecodeStartAuthSessionBody | seal.go:382-392 | the decoder recovers the nonce of an unsalted, unbound SHA-256 policy session |
| Commands.DecodePolicyPCRBody | seal.go:422-428 | the decoder recovers the session, an empty digest and the selection's normal form |
| Commands.DecodePolicySecretBody | activate.go:51-63 | the decoder recovers two handles and exactly one password session |
| Commands.DecodeUnsealBody | seal.go:491-497 | the decoder recovers the item and the policy session |
| Commands.DecodeActivateCredentialBody | activate.go:106-115 | the decoder recovers two handles, the two sessions in handle order and two blobs, one size prefix each |
| Commands.DecodeQuoteBody | attest.go:326-338 | the decoder recovers key, nonce and the selection's normal form under a NULL scheme |
| Commands.DecodeFramed | tpm.go:56 | decoding a framed body is decoding the body for that tag and command code |
| RefTpm.IssueOnce | tpm.go:55-88 | against the reference TPM a client command is one decode and one execution; a refusal arrives as the typed error and changes nothing |
| RefTpm.PolicyPCRUpdate | seal.go:100-116 | TPM2_PolicyPCR leaves SHA-256 of old digest, 00 00 01 7F, selection list and digest of the live values |
| RefTpm.PolicySecretUpdate | activate.go:28-34 | TPM2_PolicySecret leaves SHA-256 of the SHA-256 of old digest, 00 00 01 51 and entity Name, then policyRef |
| RefTpm.OneBankInOrder | seal.go:103-106 | live values of a bank are read in selection order |
| RefTpm.BanksInOrder | seal.go:103-106 | and bank after bank |
| Octets.PCRExtendOctets | commands.go:145-191 | the PCR_Extend buffer octet by octet: tag, command code, authorization area, parameters |
| Octets.CreateOctets | seal.go:273-302 | so for Create |
| Octets.LoadOctets | seal.go:327-349 | so for Load |
| Octets.ImportOctets | import.go:311-355 | so for Import |
| Octets.StartAuthSessionOctets | seal.go:382-392 | so for StartAuthSession |
| Octets.PolicyPCROctets | seal.go:422-428 | so for PolicyPCR |
| Octets.PolicySecretOctets | activate.go:28-66 | so for PolicySecret |
| Octets.UnsealOctets | seal.go:475-498 | so for Unseal |
| Octets.ActivateCredentialOctets | activate.go:83-118 | so for ActivateCredential, the AK's password before the EK's session |
| Octets.QuoteOctets | attest.go:303-340 | so for Quote |
| Octets.ReadCommandOctets | capability.go:65-83 | so for GetCapability, PCR_Read (commands.go:106-113) and NV_ReadPublic (nv.go:258-274) |
| Client.DecodeCapabilityBody | commands.go:78-86 | decoding the GetCapability request gives back selector, property and count |
| Client.LoadResultPut | seal.go:351-359 | a Load answer is read back to its handle |
| Client.StartResultPut | seal.go:394-405 | a StartAuthSession answer is read back to handle and nonce |
| Client.TPM.Create | seal.go:291-325 | the body built step by step is the Create body; the reply's two blobs or the first error |
| Client.TPM.Load | seal.go:341-360 | issues exactly the Load body and returns the handle |
| Client.TPM.Import | import.go:344-372 | issues exactly the Import body and returns outPrivate |
| Client.TPM.StartAuthSession | seal.go:382-406 | issues exactly the session request and returns handle and nonce |
| Client.TPM.PolicyPCR | seal.go:422-428 | issues exactly the PolicyPCR body |
| Client.TPM.PolicySecret | activate.go:51-66 | issues exactly the PolicySecret body |
| Client.TPM.Unseal | seal.go:491-513 | issues exactly the Unseal body and returns the data |
| Client.TPM.ActivateCredential | activate.go:106-132 | issues exactly the two-handle, two-session body and returns certInfo |
| Client.TPM.Quote | attest.go:326-345 | issues exactly the Quote body and parses the response |
| Client.TPM.PCRExtend | commands.go:173-191 | issues exactly the PCR_Extend body |
| Client.TPM.PCRRead | commands.go:111-143 | issues the selection list; counter and digests of the reply or the first error |
| Client.TPM.GetCapabilityData | capability.go:69-83 | the union member behind moreData and an echoed selector that must match |
| Client.TPM.GetTPMProperties | capability.go:115-139 | the tagged properties of the reply |
| Client.TPM.GetAlgorithms | capability.go:160-184 | the algorithm properties of the reply |
| Client.TPM.GetHandles | capability.go:191-211 | the handles of the reply |
| Client.TPM.NVReadPublic | nv.go:271-295 | the public area and Name of the reply or the first error |
| Client.NVReadPublicPut | nv.go:271-295 | a TPM's answer is read back to the public area and the Name |
| Client.TPM.SealToPCR | seal.go:521-528 | Create under the offline policy digest, which is returned too |
| Client.TPM.UnsealWithPCR | seal.go:535-548 | Load, StartAuthSession, PolicyPCR, Unseal in that order, stopping at the first error |
| Client.TPM.ImportAndUnseal | import.go:404-421 | Import, then the same four, stopping at the first error |
| Client.TPM.ActivateAKWithEK | activate.go:146-171 | Name, EK point and credential off the TPM, then StartAuthSession, PolicySecret, ActivateCredential, stopping at the first error |
| Safety.DigestMeans | seal.go:100-116 | a history of policy assertions that reaches a sealed-to digest is one PolicyPCR over the sealed-to selection that read the sealed-to values, or an explicit collision or zero preimage exists |
| Safety.FreshTpm | seal.go:12-20 | a TPM with keys but no sessions or sealed objects satisfies the invariant |
| Safety.ExecKeeps | seal.go:408-428 | every accepted command keeps it: each session's digest is the fold of its assertions and what it read is current |
| Safety.RunKeeps | seal.go:408-428 | so does every sequence of arbitrary buffers |
| Safety.UnsealSafety | seal.go:475-513 | after any run, a successful Unseal of a PCR-sealed object means its session read the sealed-to values and the PCRs still hold them, or SHA-256 fails on messages the history spells out |
| Safety.BothSealsAreSealed | seal.go:86-94 | the objects of SealToPCR and WrapToPCR are PCR-sealed: their policy is the digest and no password can use them |
| Safety.WrappedAreaFixesSecret | import.go:166-186 | after any run, a loaded object showing WrapToPCR's public area holds the wrapped secret, or SHA-256 collides |
| Safety.LoadKeepsArea | seal.go:327-360 | Load accepts an honest private blob with its own public area only, or a shown pair collides |
| Safety.ImportKeepsArea | import.go:219-231 | Import accepts an honest duplication blob with its own public area only, or a shown pair collides |
| Flows.PCRExtendStep | commands.go:145-191 | PCR_Extend folds the digest into that one PCR of that one bank |
| Flows.ImportStep | import.go:344-372 | Import of blobs that open on this TPM returns the private blob of their contents |
| Flows.LoadStep | seal.go:341-360 | Load of a blob that opens adds the object at the next handle and returns it |
| Flows.CreateStep | seal.go:291-325 | Create returns the private blob and area of the secret under the TPM's own seed value |
| Flows.StartStep | seal.go:382-406 | StartAuthSession adds a fresh session and returns its handle and nonce |
| Flows.PolicyPCRStep | seal.go:422-428 | PolicyPCR puts the offline digest of the live values in the session, or reports a missing bank |
| Flows.PolicySecretStep | activate.go:28-66 | PolicySecret puts the endorsement policy in the session |
| Flows.UnsealStep | seal.go:491-513 | Unseal returns the data if and only if the session's digest is the object's policy, a policy failure otherwise |
| Flows.WrappedIsAccepted | import.go:138-243 | the TPM with the storage key accepts WrapToPCR's blobs: HMAC, 32-octet seedValue and unique all check |
| Flows.ImportAndUnsealReturnsSecret | import.go:392-421 | for every key, ephemeral, obfuscation value, secret, selections and PCR state, the outcome is the secret when the live digest is the wrapped-to one, a policy failure from Unseal otherwise |
| Flows.UnsealWithPCRReturnsSecret | seal.go:515-548 | sealed blobs are loaded and unsealed after any run of buffers with that same outcome |
| Flows.ReleasedMeans | seal.go:96-132 | that outcome is the secret for the sealed-to selection and values, and for no others unless a shown pair collides |
| Flows.ExtendingLocks | commands.go:145-191 | after a sealed-to PCR is extended the secret is no longer released, unless the extend changed nothing or a shown pair collides |
| Flows.RunKeepsObjects | seal.go:341-360 | no sequence of buffers unloads or replaces a loaded object |
| Flows.IssueIsStep | tpm.go:55-88 | a client command has on the reference TPM the effect of its one buffer, so client flows are runs |
| Flows.UnsealWithPCRKeeps | seal.go:535-548 | the whole flow keeps the invariant, whatever its arguments and wherever it stops |
| Flows.ImportAndUnsealKeeps | import.go:404-421 | so does this one |
| Flows.QuoteVerifies | attest.go:303-391 | the TPM's quote verifies if and only if the expected values hash to the digest of the live ones, reporting the nonce and the selection's normal form |
| Flows.ActivationRuns | activate.go:159-170 | the flow's effect is the run of StartAuthSession, PolicySecret, ActivateCredential, in that order |
| Flows.ActivationReturnsCredential | activate.go:134-171 | with the AK named by akPublic loaded the credential comes back; success with another area means SHA-256 or HMAC collides on the messages shown |
| Flows.ReadyTpmExists | activate.go:134-145 | one suite and one TPM meet at once what the end-to-end results ask of curve, keys and TPM |

## Left out

- The inside of SHA-256, HMAC, AES, P-256 and ECDSA: any functions of the right shapes, under the laws named above.
- The `common` package is not part of this model. Its getters, TPM2B and frame carry the contracts its call sites and
  tests rely on; a response's declared size is not compared with its length, and payloads over 65535 octets are excluded.
- The numeric value of `ekAuthPolicy` (ek.go:53-58): it needs one concrete SHA-256 run. The activation result takes the
  EK's policy to be the digest of PolicySecret over the endorsement hierarchy, which is what that value stands for.
- Randomness: the obfuscation value, the ephemeral scalar and the nonces are parameters; a failing rng is `None`. The
  `rng == nil` default and the key-generation seam are not modelled.
- The CFB loop runs inside the Go library, so it is a function here, not a loop; HMAC inside KDFa is one call on the
  joined message.
- Real time: waiting is a counter of milliseconds. Transports are step functions, so nothing is said about concurrency.
- Defensive copies of slices, and the capacity GetHandles reserves from the claimed count (capability.go:201).
- Negative PCR indices given to PCRExtend (commands.go:176): the handle is taken as the 32-bit value already.
- Negative `bits` given to KDFa and KDFe.
- Startup, Shutdown, SelfTest, GetRandom, PolicyGetDigest, CreatePrimary, CreateStoragePrimary, CreateEK, GetPCRBanks,
  GetManufacturer and the NV write commands: straight-line marshalling like the commands modelled. moreData is skipped.
- Reference TPM: ten commands. It has no hierarchies, lockout, persistent handles, flushing of objects, size
  limits on secrets, or memory limits other than handle space; it fills no selection in, answers TPM_RC_HASH for a bank it lacks, uses the zero IV for its
  own private blobs, and knows PolicySecret for permanent entities with an empty password only. Its selection lists must
  use three-octet bitmaps.
- Crypto.LawsHaveAModel: gives one trivial suite; that P-256 satisfies the laws is not proved.
