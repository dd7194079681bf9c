/**
  PCR selections: the three-octet pcrSelect bitmap, its inverse, and the
  TPML_PCR_SELECTION list codec (pcr.go).
 */
module Pcr {
  import opened Wire
  import opened Bits

  const PCR_SELECT_SIZE := 3
  const PCR_COUNT := 24

  datatype PCRSelection = PCRSelection(hash: U16, pcrs: seq<int>)

  // ---------------------------------------------------------------------
  // What a bitmap means
  // ---------------------------------------------------------------------

  /** The n-bit number whose bit k says whether base + k is selected. */
  function OctetOf(pcrs: seq<int>, base: int, n: nat): (r: nat)
    ensures r < Pow2(n)
    decreases n, |pcrs|
  {
    if n == 0 then 0 else Digit(base in pcrs) + 2 * OctetOf(pcrs, base + 1, n - 1)
  }

  lemma {:induction false} OctetOfBit(pcrs: seq<int>, base: int, n: nat, k: nat)
    requires k < n
    ensures Bit(OctetOf(pcrs, base, n), k) == (base + k in pcrs)
    decreases n, |pcrs|
  {
    if k > 0 {
      OctetOfBit(pcrs, base + 1, n - 1, k - 1);
    }
  }

  function BitmapOf(pcrs: seq<int>): (b: Bytes)
    ensures |b| == PCR_SELECT_SIZE
  {
    Pow2Is256();
    [OctetOf(pcrs, 0, 8), OctetOf(pcrs, 8, 8), OctetOf(pcrs, 16, 8)]
  }

  predicate Selected(b: Bytes, i: nat)
    requires i < 8 * |b|
  {
    Bit(b[i / 8], i % 8)
  }

  lemma BitmapOfSelected(pcrs: seq<int>, i: nat)
    requires i < PCR_COUNT
    ensures Selected(BitmapOf(pcrs), i) == (i in pcrs)
  {
    OctetOfBit(pcrs, i / 8 * 8, 8, i % 8);
  }

  /** Bitmaps of one length that select the same PCRs are equal. */
  lemma SameSelection(a: Bytes, b: Bytes)
    requires |a| == |b|
    requires forall i: nat :: i < 8 * |a| ==> Selected(a, i) == Selected(b, i)
    ensures a == b
  {
    forall o: nat | o < |a|
      ensures a[o] == b[o]
    {
      forall k: nat | k < 8
        ensures Bit(a[o], k) == Bit(b[o], k)
      {
        assert (8 * o + k) / 8 == o && (8 * o + k) % 8 == k;
        assert Selected(a, 8 * o + k) == Selected(b, 8 * o + k);
      }
      SameOctet(a[o], b[o]);
    }
  }

  /** The PCRs from i on that bitmap b selects, ascending. */
  function SelectedFrom(b: Bytes, i: nat): seq<int>
    requires i <= 8 * |b|
    decreases 8 * |b| - i
  {
    if i == 8 * |b| then []
    else (if Selected(b, i) then [i] else []) + SelectedFrom(b, i + 1)
  }

  /** The members of pcrs in lo..23, ascending and without repetition. */
  function InRange(pcrs: seq<int>, lo: nat): seq<int>
    requires lo <= PCR_COUNT
    decreases PCR_COUNT - lo
  {
    if lo == PCR_COUNT then []
    else (if lo in pcrs then [lo as int] else []) + InRange(pcrs, lo + 1)
  }

  /** The normal form of one selection: in-range PCRs, ascending, once each. */
  function Normal(s: PCRSelection): PCRSelection {
    PCRSelection(s.hash, InRange(s.pcrs, 0))
  }

  lemma {:induction false} InRangeMeaning(pcrs: seq<int>, lo: nat)
    requires lo <= PCR_COUNT
    ensures forall p :: p in InRange(pcrs, lo) <==> lo <= p < PCR_COUNT && p in pcrs
    ensures forall i, j :: 0 <= i < j < |InRange(pcrs, lo)| ==> InRange(pcrs, lo)[i] < InRange(pcrs, lo)[j]
    decreases PCR_COUNT - lo
  {
    if lo < PCR_COUNT {
      InRangeMeaning(pcrs, lo + 1);
      var rest := InRange(pcrs, lo + 1);
      assert forall j :: 0 <= j < |rest| ==> rest[j] in rest;
    }
  }

  lemma {:induction false} SelectedIsInRange(pcrs: seq<int>, lo: nat)
    requires lo <= PCR_COUNT
    ensures SelectedFrom(BitmapOf(pcrs), lo) == InRange(pcrs, lo)
    decreases PCR_COUNT - lo
  {
    if lo < PCR_COUNT {
      BitmapOfSelected(pcrs, lo);
      SelectedIsInRange(pcrs, lo + 1);
    }
  }

  lemma {:induction false} SelectedFromMeaning(b: Bytes, lo: nat)
    requires lo <= 8 * |b|
    ensures forall p :: p in SelectedFrom(b, lo) <==> lo <= p < 8 * |b| && Selected(b, p)
    decreases 8 * |b| - lo
  {
    if lo < 8 * |b| {
      SelectedFromMeaning(b, lo + 1);
    }
  }

  /** bitmap undoes pcrsFromBitmap on every three-octet bitmap. */
  lemma BitmapOfSelectedFrom(b: Bytes)
    requires |b| == PCR_SELECT_SIZE
    ensures BitmapOf(SelectedFrom(b, 0)) == b
  {
    SelectedFromMeaning(b, 0);
    forall i: nat | i < PCR_COUNT
      ensures Selected(BitmapOf(SelectedFrom(b, 0)), i) == Selected(b, i)
    {
      BitmapOfSelected(SelectedFrom(b, 0), i);
    }
    SameSelection(BitmapOf(SelectedFrom(b, 0)), b);
  }

  /** Two selections have one bitmap exactly when their normal forms agree. */
  lemma SameBitmap(p: seq<int>, q: seq<int>)
    ensures BitmapOf(p) == BitmapOf(q) <==> InRange(p, 0) == InRange(q, 0)
  {
    SelectedIsInRange(p, 0);
    SelectedIsInRange(q, 0);
    BitmapOfSelectedFrom(BitmapOf(p));
    BitmapOfSelectedFrom(BitmapOf(q));
  }

  // ---------------------------------------------------------------------
  // The loops of bitmap and pcrsFromBitmap
  // ---------------------------------------------------------------------

  lemma MemberOfPrefix(pcrs: seq<int>, n: nat, p: int)
    requires n < |pcrs|
    ensures p in pcrs[..n + 1] <==> p in pcrs[..n] || p == pcrs[n]
  {
    assert pcrs[..n + 1] == pcrs[..n] + [pcrs[n]];
  }

  method Bitmap(s: PCRSelection) returns (bitmap: Bytes)
    ensures bitmap == BitmapOf(s.pcrs)
  {
    var b := new byte[PCR_SELECT_SIZE](_ => 0);
    forall i: nat | i < PCR_COUNT
      ensures !Selected(b[..], i)
    {
      BitOfZero(i % 8);
    }
    for n := 0 to |s.pcrs|
      invariant forall i: nat :: i < PCR_COUNT ==> Selected(b[..], i) == (i in s.pcrs[..n])
    {
      var pcr := s.pcrs[n];
      ghost var was := b[..];
      if 0 <= pcr < PCR_SELECT_SIZE * 8 {
        Pow2Le(pcr % 8, 7);
        Pow2Is256();
        b[pcr / 8] := Or(b[pcr / 8], Pow2(pcr % 8));
      }
      forall i: nat | i < PCR_COUNT
        ensures Selected(b[..], i) == (i in s.pcrs[..n + 1])
      {
        MemberOfPrefix(s.pcrs, n, i);
        assert Selected(was, i) == (i in s.pcrs[..n]);
        if 0 <= pcr < PCR_COUNT {
          OrBit(was[pcr / 8], Pow2(pcr % 8), i % 8);
          BitOfPow2(pcr % 8, i % 8);
        }
      }
    }
    bitmap := b[..];
    assert s.pcrs[..|s.pcrs|] == s.pcrs;
    forall i: nat | i < PCR_COUNT
      ensures Selected(bitmap, i) == Selected(BitmapOf(s.pcrs), i)
    {
      BitmapOfSelected(s.pcrs, i);
    }
    SameSelection(bitmap, BitmapOf(s.pcrs));
  }

  lemma TestBit(octet: byte, k: nat)
    requires k < 8
    ensures Pow2(k) < 0x100
    ensures And(octet, Pow2(k)) != 0 <==> Bit(octet, k)
  {
    Pow2Le(k, 7);
    Pow2Is256();
    AndBit(octet, Pow2(k), k);
    BitOfPow2(k, k);
    BitOfZero(k);
    if !Bit(octet, k) {
      forall j: nat | j < 8
        ensures Bit(And(octet, Pow2(k)), j) == Bit(0, j)
      {
        AndBit(octet, Pow2(k), j);
        BitOfPow2(k, j);
        BitOfZero(j);
      }
      SameOctet(And(octet, Pow2(k)), 0);
    }
  }

  lemma SelectedUnrolled(b: Bytes, i: nat, bit: nat, at: nat)
    requires i < |b| && bit < 8 && at == 8 * i + bit
    ensures Bit(b[i], bit) ==> SelectedFrom(b, at) == [at] + SelectedFrom(b, at + 1)
    ensures !Bit(b[i], bit) ==> SelectedFrom(b, at) == SelectedFrom(b, at + 1)
  {
    assert at / 8 == i && at % 8 == bit;
    assert [] + SelectedFrom(b, at + 1) == SelectedFrom(b, at + 1);
  }

  lemma SelectedStep(b: Bytes, out: seq<int>, i: nat, bit: nat, at: nat)
    requires i < |b| && bit < 8 && at == 8 * i + bit
    ensures Bit(b[i], bit) ==> out + SelectedFrom(b, at) == out + [at] + SelectedFrom(b, at + 1)
    ensures !Bit(b[i], bit) ==> out + SelectedFrom(b, at) == out + SelectedFrom(b, at + 1)
  {
    SelectedUnrolled(b, i, bit, at);
    hide *;
    Reassociate(out, [at], SelectedFrom(b, at + 1));
  }

  method PcrsFromBitmap(b: Bytes) returns (out: seq<int>)
    ensures out == SelectedFrom(b, 0)
  {
    out := [];
    ghost var at := 0;
    for i := 0 to |b|
      invariant at == 8 * i && out + SelectedFrom(b, at) == SelectedFrom(b, 0)
    {
      for bit := 0 to 8
        invariant at == 8 * i + bit && out + SelectedFrom(b, at) == SelectedFrom(b, 0)
      {
        hide *;
        TestBit(b[i], bit);
        SelectedStep(b, out, i, bit, at);
        if And(b[i], Pow2(bit)) != 0 {
          out := out + [i * 8 + bit];
        }
        at := at + 1;
      }
    }
  }

  // ---------------------------------------------------------------------
  // TPML_PCR_SELECTION
  // ---------------------------------------------------------------------

  function MarshalSelection(s: PCRSelection): (b: Bytes)
    ensures |b| == 6
  {
    BE16(s.hash) + ([PCR_SELECT_SIZE] + BitmapOf(s.pcrs))
  }

  function MarshalEntries(sel: seq<PCRSelection>): (b: Bytes)
    ensures |b| == 6 * |sel|
  {
    if sel == [] then [] else MarshalSelection(sel[0]) + MarshalEntries(sel[1..])
  }

  /** The list length converted to uint32, so it wraps. */
  function Count(sel: seq<PCRSelection>): (n: U32)
    ensures n <= |sel|
    ensures |sel| < 0x1_0000_0000 ==> n == |sel|
  {
    |sel| % 0x1_0000_0000
  }

  function MarshalList(sel: seq<PCRSelection>): (b: Bytes)
    ensures |b| == 4 + 6 * |sel|
  {
    BE32(Count(sel)) + MarshalEntries(sel)
  }

  function NormalList(sel: seq<PCRSelection>): (r: seq<PCRSelection>)
    ensures |r| == |sel|
  {
    if sel == [] then [] else [Normal(sel[0])] + NormalList(sel[1..])
  }

  type Parsed = Result<(seq<PCRSelection>, Bytes)>

  function ParseEntry(b: Bytes): (r: Result<(PCRSelection, Bytes)>)
    ensures r.Ok? ==> |b| >= 3 && |r.value.1| == |b| - 3 - b[2] as int
  {
    if |b| < 3 then Err(ShortBuffer)
    else if |b| < 3 + b[2] as int then Err(ShortBuffer)
    else Ok((PCRSelection(U16At(b, 0), SelectedFrom(b[3..3 + b[2] as int], 0)), b[3 + b[2] as int..]))
  }

  function ParseEntries(n: nat, b: Bytes): Parsed {
    if n == 0 then Ok(([], b))
    else
      var (s, rest) :- ParseEntry(b);
      var (ss, tail) :- ParseEntries(n - 1, rest);
      Ok(([s] + ss, tail))
  }

  function ParseList(b: Bytes): Parsed {
    var (n, rest) :- TakeU32(b);
    ParseEntries(n, rest)
  }

  function Prepend(sel: seq<PCRSelection>, r: Parsed): Parsed {
    match r
    case Ok((more, rest)) => Ok((sel + more, rest))
    case Err(e) => Err(e)
  }

  lemma ParseStart(b: Bytes)
    ensures |b| < 4 ==> ParseList(b) == Err(ShortBuffer)
    ensures |b| >= 4 ==> ParseList(b) == Prepend([], ParseEntries(U32At(b, 0), b[4..]))
  {
    if |b| >= 4 {
      var r := ParseEntries(U32At(b, 0), b[4..]);
      if r.Ok? {
        assert [] + r.value.0 == r.value.0;
      }
    }
  }

  lemma ParseEnd(sel: seq<PCRSelection>, b: Bytes)
    ensures Prepend(sel, ParseEntries(0, b)) == Ok((sel, b))
  {
    assert sel + [] == sel;
  }

  lemma ParseStep(sel: seq<PCRSelection>, n: nat, b: Bytes)
    requires n > 0
    ensures ParseEntry(b).Err? ==> Prepend(sel, ParseEntries(n, b)) == Err(ParseEntry(b).error)
    ensures ParseEntry(b).Ok? ==>
              Prepend(sel, ParseEntries(n, b))
              == Prepend(sel + [ParseEntry(b).value.0], ParseEntries(n - 1, ParseEntry(b).value.1))
  {
    if ParseEntry(b).Ok? {
      var (s, rest) := ParseEntry(b).value;
      var next := ParseEntries(n - 1, rest);
      if next.Ok? {
        assert sel + ([s] + next.value.0) == sel + [s] + next.value.0;
      }
    }
  }

  /** ParseEntry read through the cursor. */
  lemma ParseEntryAt(b: Bytes, off: nat)
    requires off <= |b|
    ensures GetU16(b, off).None? || GetU8(b, off + 2).None? ==> ParseEntry(b[off..]) == Err(ShortBuffer)
    ensures off + 2 < |b| ==>
              var end := off + 3 + b[off + 2] as int;
              ParseEntry(b[off..])
              == if end > |b| then Err(ShortBuffer)
                 else Ok((PCRSelection(U16At(b, off), SelectedFrom(b[off + 3..end], 0)), b[end..]))
  {
    if off + 2 < |b| {
      var end := off + 3 + b[off + 2] as int;
      if end <= |b| {
        assert b[off..][3..3 + b[off + 2] as int] == b[off + 3..end];
        assert b[off..][3 + b[off + 2] as int..] == b[end..];
      }
    }
  }

  method MarshalPCRSelectionList(sel: seq<PCRSelection>) returns (out: Bytes)
    ensures out == MarshalList(sel)
  {
    out := BE32(Count(sel));
    for i := 0 to |sel|
      invariant out + MarshalEntries(sel[i..]) == MarshalList(sel)
    {
      out := out + BE16(sel[i].hash);
      out := out + [PCR_SELECT_SIZE];
      var b := Bitmap(sel[i]);
      out := out + b;
      assert sel[i..][1..] == sel[i + 1..];
    }
  }

  /**
    The cursor `off` moves at least three octets an iteration, so the loop ends
    by the input's length whatever the 32-bit count claims.
   */
  method ParsePCRSelectionList(b: Bytes) returns (r: Parsed)
    ensures r == ParseList(b)
  {
    ParseStart(b);
    hide ParseList, ParseEntries, ParseEntry, Prepend, SelectedFrom, U16At, U32At;
    var count := GetU32(b, 0);
    if count.None? {
      return Err(ShortBuffer);
    }
    var off := 4;
    var sel: seq<PCRSelection> := [];
    var i := 0;
    while i < count.value
      invariant 0 <= i <= count.value && 4 <= off <= |b|
      invariant ParseList(b) == Prepend(sel, ParseEntries(count.value - i, b[off..]))
      decreases |b| - off
    {
      ParseStep(sel, count.value - i, b[off..]);
      ParseEntryAt(b, off);
      var hash := GetU16(b, off);
      if hash.None? {
        return Err(ShortBuffer);
      }
      var sizeOfSelect := GetU8(b, off + 2);
      if sizeOfSelect.None? {
        return Err(ShortBuffer);
      }
      var start := off + 3;
      var end := start + sizeOfSelect.value as int;
      if end > |b| {
        return Err(ShortBuffer);
      }
      var pcrs := PcrsFromBitmap(b[start..end]);
      sel := sel + [PCRSelection(hash.value, pcrs)];
      off := end;
      i := i + 1;
    }
    ParseEnd(sel, b[off..]);
    r := Ok((sel, b[off..]));
  }

  // ---------------------------------------------------------------------
  // Round trips and injectivity
  // ---------------------------------------------------------------------

  lemma ParseMarshalledEntry(s: PCRSelection, rest: Bytes)
    ensures ParseEntry(MarshalSelection(s) + rest) == Ok((Normal(s), rest))
  {
    var b := MarshalSelection(s) + rest;
    assert b == BE16(s.hash) + ([PCR_SELECT_SIZE] + BitmapOf(s.pcrs) + rest);
    BE16Read(s.hash, [PCR_SELECT_SIZE] + BitmapOf(s.pcrs) + rest);
    assert b[3..6] == BitmapOf(s.pcrs) && b[6..] == rest;
    SelectedIsInRange(s.pcrs, 0);
  }

  lemma {:induction false} ParseMarshalledEntries(n: nat, sel: seq<PCRSelection>, tail: Bytes)
    requires n <= |sel|
    ensures ParseEntries(n, MarshalEntries(sel) + tail) == Ok((NormalList(sel[..n]), MarshalEntries(sel[n..]) + tail))
  {
    if n > 0 {
      var rest := MarshalEntries(sel[1..]) + tail;
      assert MarshalEntries(sel) + tail == MarshalSelection(sel[0]) + rest;
      ParseMarshalledEntry(sel[0], rest);
      ParseMarshalledEntries(n - 1, sel[1..], tail);
      assert sel[..n][1..] == sel[1..][..n - 1] && sel[1..][n - 1..] == sel[n..];
    } else {
      assert sel[..0] == [] && sel[0..] == sel;
    }
  }

  lemma ParseCounted(n: U32, sel: seq<PCRSelection>, tail: Bytes)
    requires n <= |sel|
    ensures ParseList(BE32(n) + (MarshalEntries(sel) + tail)) == Ok((NormalList(sel[..n]), MarshalEntries(sel[n..]) + tail))
  {
    TakeU32Put(n, MarshalEntries(sel) + tail);
    ParseMarshalledEntries(n, sel, tail);
  }

  /**
    What the TPM reads back from a marshalled list: the normal form, and the
    bytes behind the list untouched. A list of 2^32 or more banks is cut at the
    wrapped count; below that nothing is lost.
   */
  lemma ParseMarshalled(sel: seq<PCRSelection>, tail: Bytes)
    ensures ParseList(MarshalList(sel) + tail)
            == Ok((NormalList(sel[..Count(sel)]), MarshalEntries(sel[Count(sel)..]) + tail))
  {
    var n := Count(sel);
    assert MarshalList(sel) + tail == BE32(n) + (MarshalEntries(sel) + tail);
    ParseCounted(n, sel, tail);
  }

  lemma ParseMarshalledWhole(sel: seq<PCRSelection>, tail: Bytes)
    requires |sel| < 0x1_0000_0000
    ensures ParseList(MarshalList(sel) + tail) == Ok((NormalList(sel), tail))
  {
    hide MarshalList, ParseList, NormalList, Count;
    ParseMarshalled(sel, tail);
    assert sel[..Count(sel)] == sel && sel[Count(sel)..] == [];
    assert MarshalEntries([]) + tail == tail;
  }

  lemma {:induction false} InRangeTwice(pcrs: seq<int>)
    ensures InRange(InRange(pcrs, 0), 0) == InRange(pcrs, 0)
  {
    SelectedIsInRange(pcrs, 0);
    BitmapOfSelectedFrom(BitmapOf(pcrs));
    SelectedIsInRange(InRange(pcrs, 0), 0);
  }

  /** Marshalling the normal form gives back the same bytes. */
  lemma {:induction false} MarshalNormal(sel: seq<PCRSelection>)
    ensures MarshalEntries(NormalList(sel)) == MarshalEntries(sel)
    ensures MarshalList(NormalList(sel)) == MarshalList(sel)
  {
    if sel != [] {
      InRangeTwice(sel[0].pcrs);
      SameBitmap(sel[0].pcrs, Normal(sel[0]).pcrs);
      MarshalNormal(sel[1..]);
      assert NormalList(sel)[1..] == NormalList(sel[1..]);
    }
  }

  lemma MarshalSelectionInjective(s: PCRSelection, t: PCRSelection)
    ensures MarshalSelection(s) == MarshalSelection(t) <==> Normal(s) == Normal(t)
  {
    hide BitmapOf, InRange, BE16;
    SameBitmap(s.pcrs, t.pcrs);
    if MarshalSelection(s) == MarshalSelection(t) {
      SplitEqual(BE16(s.hash), [PCR_SELECT_SIZE] + BitmapOf(s.pcrs), BE16(t.hash), [PCR_SELECT_SIZE] + BitmapOf(t.pcrs));
      SplitEqual([PCR_SELECT_SIZE], BitmapOf(s.pcrs), [PCR_SELECT_SIZE], BitmapOf(t.pcrs));
      BE16Injective(s.hash, t.hash);
    }
  }

  lemma {:induction false} MarshalEntriesInjective(sel: seq<PCRSelection>, other: seq<PCRSelection>)
    ensures MarshalEntries(sel) == MarshalEntries(other) <==> NormalList(sel) == NormalList(other)
  {
    if sel != [] && other != [] {
      MarshalSelectionInjective(sel[0], other[0]);
      MarshalEntriesInjective(sel[1..], other[1..]);
      assert NormalList(sel)[1..] == NormalList(sel[1..]) && NormalList(other)[1..] == NormalList(other[1..]);
      if MarshalEntries(sel) == MarshalEntries(other) {
        SplitEqual(MarshalSelection(sel[0]), MarshalEntries(sel[1..]), MarshalSelection(other[0]), MarshalEntries(other[1..]));
      }
    }
  }

  /** Two lists marshal to the same bytes exactly when their normal forms agree. */
  lemma MarshalListInjective(sel: seq<PCRSelection>, other: seq<PCRSelection>)
    ensures MarshalList(sel) == MarshalList(other) <==> NormalList(sel) == NormalList(other)
  {
    MarshalEntriesInjective(sel, other);
    if MarshalList(sel) == MarshalList(other) {
      SplitEqual(BE32(Count(sel)), MarshalEntries(sel), BE32(Count(other)), MarshalEntries(other));
    }
  }

  /** Every one of the n entries at the front of b has sizeofSelect 3. */
  predicate ThreeOctetEntries(n: nat, b: Bytes)
    requires ParseEntries(n, b).Ok?
  {
    n == 0 || (b[2] == PCR_SELECT_SIZE && ThreeOctetEntries(n - 1, ParseEntry(b).value.1))
  }

  /** An entry whose bitmap has three octets is the marshalled form of what it parses to. */
  lemma MarshalParsedEntry(b: Bytes)
    requires ParseEntry(b).Ok?
    ensures b[2] == PCR_SELECT_SIZE ==> b == MarshalSelection(ParseEntry(b).value.0) + ParseEntry(b).value.1
  {
    if b[2] == PCR_SELECT_SIZE {
      BE16Write(b, 0);
      BitmapOfSelectedFrom(b[3..6]);
    }
  }

  lemma {:induction false} MarshalParsedEntries(n: nat, b: Bytes)
    requires ParseEntries(n, b).Ok?
    ensures MarshalEntries(ParseEntries(n, b).value.0) + ParseEntries(n, b).value.1 == b <==> ThreeOctetEntries(n, b)
  {
    var (sel, tail) := ParseEntries(n, b).value;
    if n > 0 {
      var (s, rest) := ParseEntry(b).value;
      MarshalParsedEntries(n - 1, rest);
      MarshalParsedEntry(b);
      assert sel[1..] == ParseEntries(n - 1, rest).value.0;
      hide BitmapOf;
      Reassociate(MarshalSelection(s), MarshalEntries(sel[1..]), tail);
      SameHead(MarshalSelection(s), MarshalEntries(sel[1..]) + tail, rest);
    }
  }

  lemma SameHead(h: Bytes, s: Bytes, t: Bytes)
    ensures h + s == h + t <==> s == t
  {
    if h + s == h + t {
      SplitEqual(h, s, h, t);
    }
  }

  /** Re-marshalling a parsed list reproduces its bytes exactly when every bitmap had three octets. */
  lemma MarshalParsed(b: Bytes)
    requires ParseList(b).Ok?
    ensures MarshalList(ParseList(b).value.0) + ParseList(b).value.1 == b
            <==> ThreeOctetEntries(U32At(b, 0), b[4..])
  {
    var n := U32At(b, 0);
    var (sel, tail) := ParseList(b).value;
    MarshalParsedEntries(n, b[4..]);
    ParseEntriesConsumes(n, b[4..]);
    BE32Write(b, 0);
    assert b == BE32(n) + b[4..];
    assert MarshalList(sel) + tail == BE32(n) + (MarshalEntries(sel) + tail);
    if MarshalList(sel) + tail == b {
      SplitEqual(BE32(n), MarshalEntries(sel) + tail, BE32(n), b[4..]);
    }
  }

  /** A successful parse of n entries has consumed at least 4 + 3n octets. */
  lemma {:induction false} ParseEntriesConsumes(n: nat, b: Bytes)
    requires ParseEntries(n, b).Ok?
    ensures |b| >= 3 * n + |ParseEntries(n, b).value.1|
    ensures |ParseEntries(n, b).value.0| == n
  {
    if n > 0 {
      ParseEntriesConsumes(n - 1, ParseEntry(b).value.1);
    }
  }

  lemma ParseListConsumes(b: Bytes)
    requires ParseList(b).Ok?
    ensures |ParseList(b).value.0| == U32At(b, 0)
    ensures |b| >= 4 + 3 * |ParseList(b).value.0| + |ParseList(b).value.1|
  {
    ParseEntriesConsumes(U32At(b, 0), b[4..]);
  }

  lemma {:induction false} EntryOctets(sel: seq<PCRSelection>, i: nat, at: nat)
    requires i < |sel| && at == 6 * i
    ensures MarshalEntries(sel)[at..at + 6] == MarshalSelection(sel[i])
  {
    hide MarshalSelection;
    var head, rest := MarshalSelection(sel[0]), MarshalEntries(sel[1..]);
    if i == 0 {
      assert (head + rest)[0..6] == head;
    } else {
      EntryOctets(sel[1..], i - 1, at - 6);
      assert (head + rest)[at..at + 6] == rest[at - 6..at];
    }
  }

  /**
    The list on the wire: a 32-bit count, then six octets a bank: the algorithm id,
    the octet 3, and a bitmap whose octet p / 8 has weight 2^(p % 8) for PCR p.
   */
  lemma MarshalListOctets(sel: seq<PCRSelection>, i: nat, p: nat)
    requires i < |sel| < 0x1_0000_0000 && p < 24
    ensures var b := MarshalList(sel);
            && b[..4] == BE32(|sel|)
            && b[4 + 6 * i..6 + 6 * i] == BE16(sel[i].hash) && b[6 + 6 * i] == 3
            && (b[7 + 6 * i + p / 8] as nat / Pow2(p % 8) % 2 == 1 <==> p in sel[i].pcrs)
  {
    var b, at := MarshalList(sel), 4 + 6 * i;
    var e := MarshalSelection(sel[i]);
    EntryOctets(sel, i, 6 * i);
    assert b[at..at + 6] == e by {
      assert b[at..at + 6] == MarshalEntries(sel)[6 * i..6 * i + 6];
    }
    assert b[at..at + 2] == e[..2] && b[at + 2] == e[2] && b[at + 3 + p / 8] == e[3 + p / 8];
    BitmapOfSelected(sel[i].pcrs, p);
    BitIsDigit(BitmapOf(sel[i].pcrs)[p / 8], p % 8);
    hide MarshalList, MarshalEntries, BitmapOf, BE16, BE32, Bit, Pow2;
  }
}
