/**
  The cryptographic primitives the package calls, kept uninterpreted: a Suite is
  any choice of functions of the right shapes, and `Lawful` lists the few laws
  assumed of the curve and the signature scheme. Hashes are NOT assumed
  injective; a result that rests on collision resistance says which two
  messages collide when it fails.
 */
module Crypto {
  import opened Wire
  import opened Bits

  type Digest = b: Bytes | |b| == 32 witness Zeros(32)
  type Block = b: Bytes | |b| == 16 witness Zeros(16)

  const FIELD_BYTES := 32

  datatype Point = Point(x: nat, y: nat)

  datatype Suite = Suite(
    sha256: Bytes -> Digest,
    hmacSha256: (Bytes, Bytes) -> Digest,
    aes: (Block, Block) -> Block,
    isOnCurve: Point -> bool,
    scalarMult: (nat, Point) -> Point,
    generator: Point,
    order: nat,
    ecdsaSign: (nat, Digest) -> (nat, nat),
    ecdsaVerify: (Point, Digest, nat, nat) -> bool,
    pcrHash: (U16, Bytes) -> Bytes,
    tpmRandom: nat -> Digest)
  {
    function Sha(m: Bytes): (d: Digest)
      ensures |d| == 32
    {
      sha256(m)
    }

    function Mac(key: Bytes, m: Bytes): (d: Digest)
      ensures |d| == 32
    {
      hmacSha256(key, m)
    }

    predicate IsScalar(d: nat) {
      1 <= d < order
    }

    /** The public point of a private scalar. */
    function Public(d: nat): Point {
      scalarMult(d, generator)
    }

    /** x-coordinate of d * p, the ECDH shared secret, as 32 octets. */
    function SharedX(d: nat, p: Point): (z: Bytes)
      ensures |z| == FIELD_BYTES
    {
      FixedBE(scalarMult(d, p).x, FIELD_BYTES)
    }

    ghost predicate Lawful() {
      && (forall p :: isOnCurve(p) ==> p.x < Pow256(FIELD_BYTES) && p.y < Pow256(FIELD_BYTES))
      && (forall d :: IsScalar(d) ==> isOnCurve(Public(d)))
      && (forall d, s :: IsScalar(d) && IsScalar(s) ==> SharedX(d, Public(s)) == SharedX(s, Public(d)))
    }

    ghost predicate LawfulSignatures() {
      forall d, h :: IsScalar(d) ==>
        && ecdsaSign(d, h).0 < Pow256(FIELD_BYTES)
        && ecdsaSign(d, h).1 < Pow256(FIELD_BYTES)
        && ecdsaVerify(Public(d), h, ecdsaSign(d, h).0, ecdsaSign(d, h).1)
    }

    /** Explicit witnesses against the hash functions. */
    predicate ShaCollision(a: Bytes, b: Bytes) {
      a != b && Sha(a) == Sha(b)
    }

    predicate MacCollision(key: Bytes, a: Bytes, b: Bytes) {
      a != b && Mac(key, a) == Mac(key, b)
    }

    predicate ZeroPreimage(m: Bytes) {
      Sha(m) == Zeros(32)
    }
  }

  function ToySuite(g: Point, zero: Digest, block: Block): Suite {
    Suite(_ => zero, (_, _) => zero, (_, _) => block, p => p == g, (_, _) => g, g, 2,
          (_, _) => (g.x, g.y), (_, _, _, _) => true, (_, _) => [], _ => zero)
  }

  lemma ToyIsLawful(g: Point, zero: Digest, block: Block)
    requires g.x < Pow256(FIELD_BYTES) && g.y < Pow256(FIELD_BYTES)
    ensures ToySuite(g, zero, block).Lawful() && ToySuite(g, zero, block).LawfulSignatures()
  {
    hide FixedBE, Pow256;
  }

  /** The assumed laws are consistent: some suite satisfies all of them. */
  lemma LawsHaveAModel()
    ensures exists c: Suite :: c.Lawful() && c.LawfulSignatures()
  {
    ToyIsLawful(Point(0, 0), Zeros(32), Zeros(16));
  }

  /** A streaming SHA-256: the digest of everything written so far. */
  class HashState {
    const c: Suite
    var written: Bytes

    constructor (c: Suite)
      ensures this.c == c && written == []
    {
      this.c := c;
      written := [];
    }

    method Write(b: Bytes)
      modifies this`written
      ensures written == old(written) + b
    {
      written := written + b;
    }

    function Sum(): (d: Digest)
      reads this
      ensures d == c.Sha(written)
    {
      c.Sha(written)
    }
  }

  /** A streaming HMAC-SHA256 under a fixed key. */
  class MacState {
    const c: Suite
    const key: Bytes
    var written: Bytes

    constructor (c: Suite, key: Bytes)
      ensures this.c == c && this.key == key && written == []
    {
      this.c := c;
      this.key := key;
      written := [];
    }

    method Write(b: Bytes)
      modifies this`written
      ensures written == old(written) + b
    {
      written := written + b;
    }

    function Sum(): (d: Digest)
      reads this
      ensures d == c.Mac(key, written)
    {
      c.Mac(key, written)
    }
  }
}
