/**
  The big-endian wire codec every command and parser rests on: fixed-width
  integers, the size-prefixed TPM2B buffer, and the command and response frame.
  The `common` package that implements it is not part of this model; the
  contracts here are the ones its call sites and tests rely on.
 */
module Wire {

  type byte = x: int | 0 <= x < 0x100
  type Bytes = seq<byte>
  type U16 = x: int | 0 <= x < 0x1_0000
  type U32 = x: int | 0 <= x < 0x1_0000_0000

  datatype Option<+T> = None | Some(value: T)

  /** The error values the package returns; TpmError is the typed *TPMError. */
  datatype Error =
    | ShortBuffer
    | TransportFailure(code: int)
    | TpmError(cc: U32, rc: U32)
    | UnsupportedNameAlg
    | PointNotOnCurve
    | RngFailure
    | UnexpectedSigAlg
    | UnexpectedCapability
    | BadMagic
    | NotQuote
    | SigInvalid
    | PcrDigestMismatch
    | BadStructure
    | BadIntegrity
    | Refused(rc: U32)

  datatype Result<+T> = Ok(value: T) | Err(error: Error) {
    predicate IsFailure() {
      Err?
    }

    function PropagateFailure<U>(): Result<U>
      requires Err?
    {
      Err(error)
    }

    function Extract(): T
      requires Ok?
    {
      value
    }
  }

  function BE16(v: U16): (b: Bytes)
    ensures |b| == 2
  {
    [v / 0x100, v % 0x100]
  }

  function BE32(v: U32): (b: Bytes)
    ensures |b| == 4
  {
    [v / 0x100_0000, v / 0x1_0000 % 0x100, v / 0x100 % 0x100, v % 0x100]
  }

  function U16At(b: Bytes, off: nat): U16
    requires off + 2 <= |b|
  {
    b[off] as int * 0x100 + b[off + 1] as int
  }

  function U32At(b: Bytes, off: nat): U32
    requires off + 4 <= |b|
  {
    b[off] as int * 0x100_0000 + b[off + 1] as int * 0x1_0000 + b[off + 2] as int * 0x100 + b[off + 3] as int
  }

  /** The getters with an `ok` flag: None exactly when the field does not fit. */
  function GetU8(b: Bytes, off: nat): Option<byte> {
    if off + 1 <= |b| then Some(b[off]) else None
  }

  function GetU16(b: Bytes, off: nat): Option<U16> {
    if off + 2 <= |b| then Some(U16At(b, off)) else None
  }

  function GetU32(b: Bytes, off: nat): Option<U32> {
    if off + 4 <= |b| then Some(U32At(b, off)) else None
  }

  lemma BE16Read(v: U16, rest: Bytes)
    ensures U16At(BE16(v) + rest, 0) == v
    ensures (BE16(v) + rest)[2..] == rest
  {
  }

  lemma BE32Read(v: U32, rest: Bytes)
    ensures U32At(BE32(v) + rest, 0) == v
    ensures (BE32(v) + rest)[4..] == rest
  {
    BE32Value(v);
    FrontFour(BE32(v), rest);
    hide BE32;
  }

  lemma BE32Value(v: U32)
    ensures U32At(BE32(v), 0) == v
  {
    var a, b, d := v / 0x100, v / 0x1_0000, v / 0x100_0000;
    assert b == a / 0x100 && d == b / 0x100;
    assert v == 0x100 * a + v % 0x100 && a == 0x100 * b + a % 0x100 && b == 0x100 * d + b % 0x100;
    assert b % 0x100 == v / 0x1_0000 % 0x100;
  }

  lemma FrontFour(b: Bytes, rest: Bytes)
    requires |b| == 4
    ensures U32At(b + rest, 0) == U32At(b, 0) && (b + rest)[4..] == rest
  {
  }

  lemma BE16Write(b: Bytes, off: nat)
    requires off + 2 <= |b|
    ensures BE16(U16At(b, off)) == b[off..off + 2]
  {
  }

  lemma BE32Write(b: Bytes, off: nat)
    requires off + 4 <= |b|
    ensures BE32(U32At(b, off)) == b[off..off + 4]
  {
    var v := U32At(b, off);
    assert v / 0x100 == b[off] as int * 0x1_0000 + b[off + 1] as int * 0x100 + b[off + 2] as int;
    assert v / 0x1_0000 == b[off] as int * 0x100 + b[off + 1] as int;
  }

  lemma BE16Injective(a: U16, b: U16)
    requires BE16(a) == BE16(b)
    ensures a == b
  {
    BE16Read(a, []);
    BE16Read(b, []);
  }

  lemma BE32Injective(a: U32, b: U32)
    requires BE32(a) == BE32(b)
    ensures a == b
  {
    BE32Read(a, []);
    BE32Read(b, []);
  }

  /** Most significant octet first. */
  lemma BE16Octets(v: U16, a: byte, b: byte)
    requires v == a as int * 0x100 + b as int
    ensures BE16(v) == [a, b]
  {
  }

  lemma BE32Octets(v: U32, a: byte, b: byte, c: byte, d: byte)
    requires v == a as int * 0x100_0000 + b as int * 0x1_0000 + c as int * 0x100 + d as int
    ensures BE32(v) == [a, b, c, d]
  {
    BE32Write([a, b, c, d], 0);
    assert [a, b, c, d][0..4] == [a, b, c, d];
  }

  lemma TPM2BOctets(p: Bytes, hi: byte, lo: byte)
    requires |p| == hi as int * 0x100 + lo as int
    ensures Fits(p) && TPM2B(p) == [hi, lo] + p
  {
  }

  /** Reading a field off the front of a buffer, cursor style. */
  function TakeU8(b: Bytes): Result<(byte, Bytes)> {
    if |b| < 1 then Err(ShortBuffer) else Ok((b[0], b[1..]))
  }

  function TakeU16(b: Bytes): Result<(U16, Bytes)> {
    if |b| < 2 then Err(ShortBuffer) else Ok((U16At(b, 0), b[2..]))
  }

  function TakeU32(b: Bytes): Result<(U32, Bytes)> {
    if |b| < 4 then Err(ShortBuffer) else Ok((U32At(b, 0), b[4..]))
  }

  predicate Fits(p: Bytes) {
    |p| <= 0xFFFF
  }

  /** TPM2B: a 16-bit size, then that many bytes. */
  function TPM2B(p: Bytes): (b: Bytes)
    requires Fits(p)
    ensures |b| == 2 + |p|
  {
    BE16(|p|) + p
  }

  function UnmarshalTPM2B(b: Bytes): (r: Result<(Bytes, Bytes)>)
    ensures r.Ok? ==> |r.value.0| + |r.value.1| + 2 == |b|
  {
    if |b| < 2 then Err(ShortBuffer)
    else if |b| < 2 + U16At(b, 0) then Err(ShortBuffer)
    else Ok((b[2..2 + U16At(b, 0)], b[2 + U16At(b, 0)..]))
  }

  lemma TakeU16Put(v: U16, rest: Bytes)
    ensures TakeU16(BE16(v) + rest) == Ok((v, rest))
  {
    BE16Read(v, rest);
  }

  lemma TakeU32Put(v: U32, rest: Bytes)
    ensures TakeU32(BE32(v) + rest) == Ok((v, rest))
  {
    BE32Read(v, rest);
  }

  lemma UnmarshalMarshal(p: Bytes, rest: Bytes)
    requires Fits(p)
    ensures UnmarshalTPM2B(TPM2B(p) + rest) == Ok((p, rest))
  {
    var b := TPM2B(p) + rest;
    assert b == BE16(|p|) + (p + rest);
    BE16Read(|p|, p + rest);
    assert b[2..2 + |p|] == p;
    assert b[2 + |p|..] == rest;
  }

  lemma MarshalUnmarshal(b: Bytes)
    requires UnmarshalTPM2B(b).Ok?
    ensures Fits(UnmarshalTPM2B(b).value.0)
    ensures b == TPM2B(UnmarshalTPM2B(b).value.0) + UnmarshalTPM2B(b).value.1
  {
    BE16Write(b, 0);
  }

  /** Equal concatenations whose left parts have equal length have equal parts. */
  lemma SplitEqual<T>(a: seq<T>, b: seq<T>, c: seq<T>, d: seq<T>)
    requires a + b == c + d && |a| == |c|
    ensures a == c && b == d
  {
    assert a == (a + b)[..|a|] && c == (c + d)[..|c|];
    assert b == (a + b)[|a|..] && d == (c + d)[|c|..];
  }

  lemma Reassociate<T>(a: seq<T>, b: seq<T>, c: seq<T>)
    ensures a + (b + c) == a + b + c
  {
  }

  function Zeros(n: nat): (b: Bytes)
    ensures |b| == n
  {
    seq(n, _ => 0)
  }

  function Concat(parts: seq<Bytes>): Bytes {
    if parts == [] then [] else parts[0] + Concat(parts[1..])
  }

  lemma {:induction false} ConcatAppend(parts: seq<Bytes>, last: Bytes)
    ensures Concat(parts + [last]) == Concat(parts) + last
  {
    if parts == [] {
      assert parts + [last] == [last];
    } else {
      assert (parts + [last])[1..] == parts[1..] + [last];
      ConcatAppend(parts[1..], last);
    }
  }

  /** The frame [tag | size | code | params]; the size wraps like a uint32. */
  function Frame(tag: U16, code: U32, params: Bytes): (b: Bytes)
    ensures |b| == 10 + |params|
  {
    BE16(tag) + (BE32((10 + |params|) % 0x1_0000_0000) + (BE32(code) + params))
  }

  /** Header parse of a response: its tag, code and parameter bytes. */
  function ParseFrame(b: Bytes): Result<(U16, U32, Bytes)> {
    if |b| < 10 then Err(ShortBuffer) else Ok((U16At(b, 0), U32At(b, 6), b[10..]))
  }

  lemma ParseFramed(tag: U16, code: U32, params: Bytes)
    ensures ParseFrame(Frame(tag, code, params)) == Ok((tag, code, params))
    ensures U32At(Frame(tag, code, params), 2) == (10 + |params|) % 0x1_0000_0000
  {
    var b := Frame(tag, code, params);
    var inner := BE32((10 + |params|) % 0x1_0000_0000) + (BE32(code) + params);
    BE16Read(tag, inner);
    BE32Read((10 + |params|) % 0x1_0000_0000, BE32(code) + params);
    BE32Read(code, params);
    assert b[2..] == inner && b[6..] == BE32(code) + params && b[10..] == params;
  }
}
