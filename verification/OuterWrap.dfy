/**
  The outer wrap shared by Credential Protection (makecred.go) and Duplication
  (import.go): an ECDH seed, a storage key bound to an object's Name, and an
  HMAC over ciphertext and Name. The sender's side is what the package does; the
  receiver's side is what a TPM holding the private scalar does.
 */
module OuterWrap {
  import opened Wire
  import opened Bits
  import opened Crypto
  import opened Kdf
  import opened Cfb
  import opened PublicArea

  /** Octets the wrap adds to a payload: its size, and the MAC with its size. */
  const OVERHEAD := 36

  predicate Wrappable(payload: Bytes) {
    |payload| + OVERHEAD <= 0xFFFF
  }

  function StorageKey(c: Suite, seed: Bytes, name: Bytes): (k: Block)
    ensures |k| == 16
  {
    KDFaSpec(c, seed, LABEL_STORAGE, name, [], 128)
  }

  function IntegrityKey(c: Suite, seed: Bytes): Bytes {
    KDFaSpec(c, seed, LABEL_INTEGRITY, [], [], 256)
  }

  function OuterMac(c: Suite, seed: Bytes, name: Bytes, enc: Bytes): (m: Digest)
    ensures |m| == 32
  {
    c.Mac(IntegrityKey(c, seed), enc + name)
  }

  function Encipher(c: Suite, seed: Bytes, name: Bytes, payload: Bytes): (e: Bytes)
    requires Fits(payload)
    ensures |e| == 2 + |payload|
  {
    AesCFBZeroIV(c, StorageKey(c, seed, name), TPM2B(payload))
  }

  /** TPM2B(outerHMAC) then the ciphertext: the contents of the wrapped blob. */
  function Seal(c: Suite, seed: Bytes, name: Bytes, payload: Bytes): (b: Bytes)
    requires Wrappable(payload)
    ensures |b| == OVERHEAD + |payload|
  {
    TPM2B(OuterMac(c, seed, name, Encipher(c, seed, name, payload))) + Encipher(c, seed, name, payload)
  }

  /** The receiver's inverse: check the MAC, decipher, strip the size prefix. */
  function Open(c: Suite, seed: Bytes, name: Bytes, blob: Bytes): (r: Result<Bytes>)
    ensures r.Ok? ==> |r.value| <= |blob| - 4
  {
    var (mac, enc) :- UnmarshalTPM2B(blob);
    if mac != OuterMac(c, seed, name, enc) then Err(BadIntegrity)
    else
      var (payload, rest) :- UnmarshalTPM2B(Decrypt(c, StorageKey(c, seed, name), Zeros(BLOCK), enc));
      if rest != [] then Err(BadStructure) else Ok(payload)
  }

  lemma OpenSeal(c: Suite, seed: Bytes, name: Bytes, payload: Bytes)
    requires Wrappable(payload)
    ensures Open(c, seed, name, Seal(c, seed, name, payload)) == Ok(payload)
  {
    var enc := Encipher(c, seed, name, payload);
    UnmarshalMarshal(OuterMac(c, seed, name, enc), enc);
    DecryptEncrypt(c, StorageKey(c, seed, name), Zeros(BLOCK), TPM2B(payload));
    UnmarshalMarshal(payload, []);
    assert TPM2B(payload) + [] == TPM2B(payload);
    hide OuterMac, StorageKey, Decrypt, Encrypt, TPM2B, UnmarshalTPM2B;
  }

  /**
    Integrity and Name binding: whatever ciphertext and 34-octet Name a receiver
    with the derived key accepts beside an honest MAC are the honest ones, or
    HMAC collides on the two messages shown.
   */
  lemma OpenBinding(c: Suite, seed: Bytes, name: Bytes, payload: Bytes, name': Bytes, enc': Bytes)
    requires Wrappable(payload) && |name| == |name'| == NAME_BYTES
    requires Open(c, seed, name', TPM2B(OuterMac(c, seed, name, Encipher(c, seed, name, payload))) + enc').Ok?
    ensures var enc := Encipher(c, seed, name, payload);
            || (enc' == enc && name' == name)
            || c.MacCollision(IntegrityKey(c, seed), enc + name, enc' + name')
  {
    var enc := Encipher(c, seed, name, payload);
    UnmarshalMarshal(OuterMac(c, seed, name, enc), enc');
    hide Encipher, StorageKey, IntegrityKey, TPM2B, UnmarshalTPM2B;
    if enc + name == enc' + name' {
      assert |enc| == |enc'|;
      SplitEqual(enc, name, enc', name');
    }
  }

  /** Under one seed, an honest blob opens for its own Name only. */
  lemma SealNamesOne(c: Suite, seed: Bytes, name: Bytes, payload: Bytes, name': Bytes)
    requires Wrappable(payload) && |name| == |name'| == NAME_BYTES
    requires Open(c, seed, name', Seal(c, seed, name, payload)).Ok?
    ensures var enc := Encipher(c, seed, name, payload);
            name' == name || c.MacCollision(IntegrityKey(c, seed), enc + name, enc + name')
  {
    OpenBinding(c, seed, name, payload, name', Encipher(c, seed, name, payload));
  }

  // ---------------------------------------------------------------------
  // The ECDH seed
  // ---------------------------------------------------------------------

  /** The point a pair of big-endian coordinates denotes. */
  function PointOf(p: EccPoint): Point {
    Point(BigEndian(p.x), BigEndian(p.y))
  }

  /** Fixed-width coordinates of a point. */
  function FixedPoint(p: Point): (e: EccPoint)
    ensures |e.x| == FIELD_BYTES && |e.y| == FIELD_BYTES
  {
    EccPoint(FixedBE(p.x, FIELD_BYTES), FixedBE(p.y, FIELD_BYTES))
  }

  /** The sender knows the ephemeral scalar s and the receiver's public point. */
  function SenderSeed(c: Suite, lbl: Bytes, s: nat, receiver: Point): (seed: Bytes)
    ensures |seed| == 32
  {
    KDFeSpec(c, c.SharedX(s, receiver), lbl, FixedPoint(c.Public(s)).x, FixedPoint(receiver).x, 256)
  }

  /** The receiver knows its scalar d and the ephemeral point. */
  function ReceiverSeed(c: Suite, lbl: Bytes, d: nat, ephemeral: Point): (seed: Bytes)
    ensures |seed| == 32
  {
    KDFeSpec(c, c.SharedX(d, ephemeral), lbl, FixedPoint(ephemeral).x, FixedPoint(c.Public(d)).x, 256)
  }

  lemma SeedsAgree(c: Suite, lbl: Bytes, s: nat, d: nat)
    requires c.Lawful() && c.IsScalar(s) && c.IsScalar(d)
    ensures SenderSeed(c, lbl, s, c.Public(d)) == ReceiverSeed(c, lbl, d, c.Public(s))
  {
    hide KDFeSpec, FixedPoint;
  }

  /** The two size-prefixed blobs the sender ships. */
  datatype Blobs = Blobs(wrapped: Bytes, secret: Bytes)

  function WrapFor(c: Suite, lbl: Bytes, s: nat, receiver: Point, name: Bytes, payload: Bytes): Blobs
    requires Wrappable(payload)
  {
    Blobs(TPM2B(Seal(c, SenderSeed(c, lbl, s, receiver), name, payload)), TPM2B(PutPoint(FixedPoint(c.Public(s)), [])))
  }

  /** What the private-key holder does with the contents of the two blobs. */
  function Unwrap(c: Suite, lbl: Bytes, d: nat, name: Bytes, wrapped: Bytes, secret: Bytes): (r: Result<Bytes>)
    ensures r.Ok? ==> |r.value| <= |wrapped|
  {
    var (p, rest) :- TakePoint(secret);
    if rest != [] then Err(BadStructure)
    else if !c.isOnCurve(PointOf(p)) then Err(PointNotOnCurve)
    else Open(c, ReceiverSeed(c, lbl, d, PointOf(p)), name, wrapped)
  }

  lemma FixedPointReads(p: Point)
    requires p.x < Pow256(FIELD_BYTES) && p.y < Pow256(FIELD_BYTES)
    ensures PointOf(FixedPoint(p)) == p
  {
    FixedBERead(p.x, FIELD_BYTES);
    FixedBERead(p.y, FIELD_BYTES);
    hide FixedBE, BigEndian, Pow256;
  }

  /** Which receiver's seed the shipped secret leads to. */
  lemma UnwrapReaches(c: Suite, lbl: Bytes, s: nat, d: nat, name: Bytes, blob: Bytes)
    requires c.Lawful() && c.IsScalar(s) && c.IsScalar(d)
    ensures Unwrap(c, lbl, d, name, blob, PutPoint(FixedPoint(c.Public(s)), []))
            == Open(c, SenderSeed(c, lbl, s, c.Public(d)), name, blob)
  {
    TakePointPut(FixedPoint(c.Public(s)), []);
    FixedPointReads(c.Public(s));
    SeedsAgree(c, lbl, s, d);
    hide TakePoint, PutPoint, FixedPoint, PointOf, Open, SenderSeed, ReceiverSeed, Pow256;
  }

  /** Round trip: the holder of d recovers exactly what was wrapped for its public point. */
  lemma UnwrapWrap(c: Suite, lbl: Bytes, s: nat, d: nat, name: Bytes, payload: Bytes)
    requires c.Lawful() && c.IsScalar(s) && c.IsScalar(d) && Wrappable(payload)
    ensures Unwrap(c, lbl, d, name, Seal(c, SenderSeed(c, lbl, s, c.Public(d)), name, payload), PutPoint(FixedPoint(c.Public(s)), []))
            == Ok(payload)
  {
    var seed := SenderSeed(c, lbl, s, c.Public(d));
    UnwrapReaches(c, lbl, s, d, name, Seal(c, seed, name, payload));
    OpenSeal(c, seed, name, payload);
    hide *;
  }

  // ---------------------------------------------------------------------
  // The sender's steps, as the code takes them
  // ---------------------------------------------------------------------

  /** ECDH and KDFe: Z, the fixed-width coordinates, then the seed. */
  method DeriveSeed(c: Suite, lbl: Bytes, s: nat, receiver: EccPoint) returns (seed: Bytes, qe: EccPoint)
    ensures qe == FixedPoint(c.Public(s))
    ensures seed == SenderSeed(c, lbl, s, PointOf(receiver))
  {
    hide KDFeSpec, FixedBE, BigEndian;
    var zx := MinimalBE(c.scalarMult(s, PointOf(receiver)).x);
    MinimalBEValue(c.scalarMult(s, PointOf(receiver)).x);
    var z := LeftPad(zx, FIELD_BYTES);
    var ephX, ephY := MinimalBE(c.Public(s).x), MinimalBE(c.Public(s).y);
    MinimalBEValue(c.Public(s).x);
    MinimalBEValue(c.Public(s).y);
    var qeX := LeftPad(ephX, FIELD_BYTES);
    var qeY := LeftPad(ephY, FIELD_BYTES);
    var fixX := LeftPad(receiver.x, FIELD_BYTES);
    seed := KDFe(c, z, lbl, qeX, fixX, 256);
    qe := EccPoint(qeX, qeY);
  }

  /** Encrypt then MAC, ciphertext before Name. */
  method WrapPayload(c: Suite, seed: Bytes, name: Bytes, payload: Bytes) returns (b: Bytes)
    requires Wrappable(payload)
    ensures b == Seal(c, seed, name, payload)
    ensures var key := c.Mac(seed, [0, 0, 0, 1] + ([0x53, 0x54, 0x4F, 0x52, 0x41, 0x47, 0x45, 0] + (name + [0, 0, 0, 128])))[..16];
            var macKey := c.Mac(seed, [0, 0, 0, 1] + ([0x49, 0x4E, 0x54, 0x45, 0x47, 0x52, 0x49, 0x54, 0x59, 0] + [0, 0, 1, 0]));
            var enc := AesCFBZeroIV(c, key, TPM2B(payload));
            b == [0, 32] + c.Mac(macKey, enc + name) + enc
  {
    var symKey := KDFa(c, seed, LABEL_STORAGE, name, [], 128);
    var plain := TPM2B(payload);
    var enc := AesCFBZeroIV(c, symKey, plain);
    var hmacKey := KDFa(c, seed, LABEL_INTEGRITY, [], [], 256);
    hide KDFaSpec, AesCFBZeroIV;
    var mac := new MacState(c, hmacKey);
    mac.Write(enc);
    mac.Write(name);
    var outerHMAC := mac.Sum();
    assert [] + enc + name == enc + name;
    b := TPM2B(outerHMAC);
    b := b + enc;
    assert b == Seal(c, seed, name, payload);
    hide *;
    SealedOctets(c, seed, name, payload);
  }

  // ---------------------------------------------------------------------
  // The wrap from the primitives
  // ---------------------------------------------------------------------

  lemma StorageKeyOctets(c: Suite, seed: Bytes, name: Bytes)
    ensures StorageKey(c, seed, name)
            == c.Mac(seed, [0, 0, 0, 1] + ([0x53, 0x54, 0x4F, 0x52, 0x41, 0x47, 0x45, 0] + (name + [0, 0, 0, 128])))[..16]
  {
    hide And, HighMask;
    OneBlock(c, KdfA(seed, LABEL_STORAGE, name, [], 128));
    BE32Octets(1, 0, 0, 0, 1);
    BE32Octets(128, 0, 0, 0, 128);
    hide BE32, Derive;
    assert LabelBytes(LABEL_STORAGE) == [0x53, 0x54, 0x4F, 0x52, 0x41, 0x47, 0x45, 0];
    assert [] + [0, 0, 0, 128] == [0, 0, 0, 128];
  }

  lemma IntegrityKeyOctets(c: Suite, seed: Bytes)
    ensures IntegrityKey(c, seed)
            == c.Mac(seed, [0, 0, 0, 1] + ([0x49, 0x4E, 0x54, 0x45, 0x47, 0x52, 0x49, 0x54, 0x59, 0] + [0, 0, 1, 0]))
  {
    hide And, HighMask;
    OneBlock(c, KdfA(seed, LABEL_INTEGRITY, [], [], 256));
    BE32Octets(1, 0, 0, 0, 1);
    BE32Octets(256, 0, 0, 1, 0);
    hide BE32, Derive;
    assert LabelBytes(LABEL_INTEGRITY) == [0x49, 0x4E, 0x54, 0x45, 0x47, 0x52, 0x49, 0x54, 0x59, 0];
    assert [] + ([] + [0, 0, 1, 0]) == [0, 0, 1, 0];
  }

  /**
    The wrapped blob: the 32-octet MAC with its size, then the ciphertext. The
    cipher key is bound to the Name ("STORAGE", 128 bits), the MAC key is not
    ("INTEGRITY", 256 bits), and the MAC covers ciphertext, then Name.
   */
  lemma SealedOctets(c: Suite, seed: Bytes, name: Bytes, payload: Bytes)
    requires Wrappable(payload)
    ensures var key := c.Mac(seed, [0, 0, 0, 1] + ([0x53, 0x54, 0x4F, 0x52, 0x41, 0x47, 0x45, 0] + (name + [0, 0, 0, 128])))[..16];
            var macKey := c.Mac(seed, [0, 0, 0, 1] + ([0x49, 0x4E, 0x54, 0x45, 0x47, 0x52, 0x49, 0x54, 0x59, 0] + [0, 0, 1, 0]));
            var enc := AesCFBZeroIV(c, key, TPM2B(payload));
            Seal(c, seed, name, payload) == [0, 32] + c.Mac(macKey, enc + name) + enc
  {
    StorageKeyOctets(c, seed, name);
    IntegrityKeyOctets(c, seed);
    TPM2BOctets(OuterMac(c, seed, name, Encipher(c, seed, name, payload)), 0, 32);
    hide StorageKey, IntegrityKey, AesCFBZeroIV, TPM2B;
  }

  /**
    The seed: one SHA-256 over counter 1, the shared x-coordinate, the label, then
    the ephemeral and the receiver's x-coordinates, each in 32 octets.
   */
  lemma SeedOctets(c: Suite, lbl: Bytes, s: nat, receiver: Point)
    requires lbl == [] || lbl[|lbl| - 1] != 0
    ensures SenderSeed(c, lbl, s, receiver)
            == c.Sha([0, 0, 0, 1] + (FixedBE(c.scalarMult(s, receiver).x, 32) + ((lbl + [0])
                     + (FixedBE(c.scalarMult(s, c.generator).x, 32) + FixedBE(receiver.x, 32)))))
  {
    hide And, HighMask, FixedBE;
    OneBlock(c, KdfE(c.SharedX(s, receiver), lbl, FixedPoint(c.Public(s)).x, FixedPoint(receiver).x));
    BE32Octets(1, 0, 0, 0, 1);
    hide BE32, Derive;
  }

  /** What is shipped beside it: size 68, then both coordinates of the ephemeral point with their sizes, x first. */
  lemma SecretOctets(c: Suite, lbl: Bytes, s: nat, receiver: Point, name: Bytes, payload: Bytes)
    requires Wrappable(payload)
    ensures var p := c.scalarMult(s, c.generator);
            WrapFor(c, lbl, s, receiver, name, payload).secret
            == [0, 68] + ([0, 32] + (FixedBE(p.x, 32) + ([0, 32] + FixedBE(p.y, 32))))
  {
    var e := FixedPoint(c.Public(s));
    TPM2BOctets(e.x, 0, 32);
    TPM2BOctets(e.y, 0, 32);
    TPM2BOctets(PutPoint(e, []), 0, 68);
    hide TPM2B, FixedBE, Seal, SenderSeed;
    var y: Bytes := [0, 32] + e.y;
    assert y + [] == y;
    Reassociate([0, 32], e.x, y);
  }

  /** Both blobs: the sealed payload under that seed, and that secret. */
  lemma WrapOctets(c: Suite, lbl: Bytes, s: nat, receiver: Point, name: Bytes, payload: Bytes)
    requires Wrappable(payload) && (lbl == [] || lbl[|lbl| - 1] != 0)
    ensures var q := c.scalarMult(s, c.generator);
            var seed := c.Sha([0, 0, 0, 1] + (FixedBE(c.scalarMult(s, receiver).x, 32) + ((lbl + [0]) + (FixedBE(q.x, 32) + FixedBE(receiver.x, 32)))));
            WrapFor(c, lbl, s, receiver, name, payload)
            == Blobs(TPM2B(Seal(c, seed, name, payload)), [0, 68] + ([0, 32] + (FixedBE(q.x, 32) + ([0, 32] + FixedBE(q.y, 32)))))
  {
    hide FixedBE, Seal, SenderSeed, TPM2B, FixedPoint, PutPoint;
    SeedOctets(c, lbl, s, receiver);
    SecretOctets(c, lbl, s, receiver, name, payload);
  }
}
