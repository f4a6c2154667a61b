/**
  The table-driven CRC of the firmware and the uploader, proved equal to polynomial
  division, and what that division detects.
*/
module Crc {
  import opened CrcTables
  import opened Gf2

  type Bytes = seq<bv8>

  /* Machine words as coefficient sequences. */

  predicate On(r: bv16, mask: bv16) {
    r & mask != 0
  }

  // The mask of coefficient k, counted from the top bit.
  function Mask(k: nat): bv16 {
    match k
    case 0 => 0x8000 case 1 => 0x4000 case 2 => 0x2000 case 3 => 0x1000
    case 4 => 0x0800 case 5 => 0x0400 case 6 => 0x0200 case 7 => 0x0100
    case 8 => 0x0080 case 9 => 0x0040 case 10 => 0x0020 case 11 => 0x0010
    case 12 => 0x0008 case 13 => 0x0004 case 14 => 0x0002 case 15 => 0x0001
    case _ => 0
  }

  function WordBits(r: bv16): (s: Register)
    ensures forall k | 0 <= k < 16 :: s[k] == On(r, Mask(k))
  {
    seq(16, k requires 0 <= k < 16 => On(r, Mask(k)))
  }

  // The eight bits of a byte are those of the same value in a word's low half.
  function ByteBits(b: bv8): (s: Bits)
    ensures |s| == 8
  {
    WordBits(b as bv16)[8..]
  }

  function MessageBits(data: Bytes): (s: Bits)
    ensures |s| == 8 * |data|
  {
    if data == [] then [] else ByteBits(data[0]) + MessageBits(data[1..])
  }

  lemma MaskIsOneBit(k: nat)
    requires k < 16
    ensures Mask(k) & (Mask(k) - 1) == 0 && Mask(k) >> 1 == Mask(k + 1)
    ensures On(0x1021, Mask(k)) <==> HasTerm(k)
  {
  }

  lemma OnXor(x: bv16, y: bv16, m: bv16)
    requires m & (m - 1) == 0
    ensures On(x ^ y, m) <==> (On(x, m) != On(y, m))
  {
  }

  lemma WordBitsXor(x: bv16, y: bv16)
    ensures WordBits(x ^ y) == Xor(WordBits(x), WordBits(y))
  {
    hide On;
    forall k: nat | k < 16
      ensures On(x ^ y, Mask(k)) <==> (On(x, Mask(k)) != On(y, Mask(k)))
    {
      MaskIsOneBit(k);
      OnXor(x, y, Mask(k));
    }
  }

  lemma OnShift(x: bv16, m: bv16)
    ensures On(x << 1, m) <==> On(x, m >> 1)
  {
  }

  lemma OnNothing(x: bv16)
    ensures !On(x, Mask(16))
  {
  }

  lemma WordBitsShift(x: bv16)
    ensures WordBits(x << 1) == WordBits(x)[1..] + [false]
  {
    hide On;
    OnNothing(x);
    forall k: nat | k < 16
      ensures On(x << 1, Mask(k)) <==> On(x, Mask(k + 1))
    {
      OnShift(x, Mask(k));
      MaskIsOneBit(k);
    }
  }

  lemma WordBitsZero()
    ensures WordBits(0) == Zeros(16)
  {
  }

  lemma WordBitsInjective(x: bv16, y: bv16)
    requires WordBits(x) == WordBits(y)
    ensures x == y
  {
    WordBitsXor(x, y);
    var z, s := x ^ y, WordBits(x ^ y);
    forall k: nat | k < 16 ensures !On(z, Mask(k)) {
      assert !s[k];
    }
    NoBits(z);
    assert z == 0 ==> x == y;
  }

  lemma NoBits(z: bv16)
    requires forall k: nat | k < 16 :: !On(z, Mask(k))
    ensures z == 0
  {
    assert !On(z, Mask(0)) && !On(z, Mask(1)) && !On(z, Mask(2)) && !On(z, Mask(3));
    assert !On(z, Mask(4)) && !On(z, Mask(5)) && !On(z, Mask(6)) && !On(z, Mask(7));
    assert !On(z, Mask(8)) && !On(z, Mask(9)) && !On(z, Mask(10)) && !On(z, Mask(11));
    assert !On(z, Mask(12)) && !On(z, Mask(13)) && !On(z, Mask(14)) && !On(z, Mask(15));
  }

  lemma ZeroStepIsStep(r: bv16)
    ensures WordBits(ZeroStep(r)) == Step(WordBits(r), false)
  {
    assert On(r, 0x8000) <==> WordBits(r)[0];
    assert ZeroStep(r) == if On(r, 0x8000) then (r << 1) ^ 0x1021 else r << 1;
    hide On, ZeroStep;
    WordBitsShift(r);
    WordBitsXor(r << 1, 0x1021);
    PolyBits();
  }

  lemma PolyBits()
    ensures WordBits(0x1021) == Poly()
  {
    forall k: nat | k < 16 ensures On(0x1021, Mask(k)) <==> HasTerm(k) {
      MaskIsOneBit(k);
    }
  }

  function ZeroSteps(r: bv16, n: nat): bv16
    decreases n
  {
    if n == 0 then r else ZeroSteps(ZeroStep(r), n - 1)
  }

  lemma {:induction false} ZeroStepsIsDivide(r: bv16, n: nat)
    ensures WordBits(ZeroSteps(r, n)) == Divide(WordBits(r), Zeros(n))
    decreases n
  {
    hide ZeroStep, Step, WordBits;
    if n > 0 {
      ZeroStepIsStep(r);
      assert Zeros(n)[1..] == Zeros(n - 1);
      ZeroStepsIsDivide(ZeroStep(r), n - 1);
    }
  }

  lemma EightZeroStepsIsDivide(r: bv16)
    ensures WordBits(EightZeroSteps(r)) == Divide(WordBits(r), Zeros(8))
  {
    hide ZeroStep, WordBits;
    var r1 := ZeroStep(r);
    var r2 := ZeroStep(r1);
    var r3 := ZeroStep(r2);
    var r4 := ZeroStep(r3);
    assert ZeroSteps(r, 8) == ZeroSteps(r2, 6) == ZeroSteps(r4, 4);
    assert ZeroSteps(r4, 4) == ZeroSteps(ZeroStep(ZeroStep(r4)), 2) == EightZeroSteps(r);
    ZeroStepsIsDivide(r, 8);
  }

  /* The table form. */

  function TableStep(crc: bv16, b: bv8): bv16 {
    (crc << 8) ^ CrcTable(((crc >> 8) as bv8) ^ b)
  }

  function TableCrc(crc: bv16, data: Bytes): bv16
    decreases |data|
  {
    if data == [] then crc else TableCrc(TableStep(crc, data[0]), data[1..])
  }

  lemma OnShiftByte(x: bv16, k: nat)
    requires k < 16
    ensures On(x << 8, Mask(k)) <==> k < 8 && On(x, Mask(k + 8))
  {
  }

  lemma OnByte(b: bv8, k: nat)
    requires k < 8
    ensures !On(b as bv16, Mask(k))
  {
  }

  lemma OnIndex(crc: bv16, b: bv8, k: nat)
    requires k < 8
    ensures On((((crc >> 8) as bv8) ^ b) as bv16, Mask(k + 8))
       <==> (On(crc, Mask(k)) != On(b as bv16, Mask(k + 8)))
  {
  }

  lemma WordBitsShiftByte(x: bv16)
    ensures WordBits(x << 8) == WordBits(x)[8..] + Zeros(8)
  {
    hide On;
    var s, t := WordBits(x << 8), WordBits(x)[8..] + Zeros(8);
    forall k: nat | k < 16 ensures s[k] == t[k] {
      OnShiftByte(x, k);
    }
  }

  lemma IndexBits(crc: bv16, b: bv8)
    ensures ByteBits(((crc >> 8) as bv8) ^ b) == Xor(WordBits(crc)[..8], ByteBits(b))
  {
    hide On, Mask;
    forall k: nat | k < 8 {
      OnIndex(crc, b, k);
    }
  }

  // Division by another route: the entry accounts for the byte that leaves the register,
  // the other byte just moves up.
  lemma ByteAtATime(reg: Register, b: Bits, entry: Register)
    requires |b| == 8
    requires entry == Divide(Xor(reg[..8], b) + Zeros(8), Zeros(8))
    ensures Xor(reg[8..] + Zeros(8), entry) == Divide(Xor(reg, b + Zeros(8)), Zeros(8))
  {
    var high, low := Xor(reg[..8], b) + Zeros(8), Zeros(8) + reg[8..];
    assert Xor(reg, b + Zeros(8)) == Xor(low, high);
    assert Xor(Zeros(8), Zeros(8)) == Zeros(8);
    DivideLinear(low, high, Zeros(8), Zeros(8));
    DivideShifts(low, Zeros(8));
    assert low[8..] == reg[8..];
  }

  lemma EntryBits(index: bv8)
    ensures WordBits(CrcTable(index)) == Divide(ByteBits(index) + Zeros(8), Zeros(8))
  {
    assert CrcTable(index) == EightZeroSteps((index as bv16) << 8);
    hide EightZeroSteps, WordBits, CrcTable;
    WordBitsShiftByte(index as bv16);
    EightZeroStepsIsDivide((index as bv16) << 8);
  }

  lemma TableStepBits(crc: bv16, b: bv8, index: bv8)
    requires index == ((crc >> 8) as bv8) ^ b
    ensures WordBits(TableStep(crc, b)) == Xor(WordBits(crc << 8), WordBits(CrcTable(index)))
  {
    hide WordBits;
    WordBitsXor(crc << 8, CrcTable(index));
  }

  lemma TableStepDivides(crc: bv16, b: bv8)
    ensures WordBits(TableStep(crc, b))
         == Divide(Xor(WordBits(crc), ByteBits(b) + Zeros(8)), Zeros(8))
  {
    hide *;
    var index := ((crc >> 8) as bv8) ^ b;
    TableStepBits(crc, b, index);
    IndexBits(crc, b);
    WordBitsShiftByte(crc);
    EntryBits(index);
    ByteAtATime(WordBits(crc), ByteBits(b), WordBits(CrcTable(index)));
  }

  /* The table form computes the remainder of the message with sixteen zero bits appended. */

  function PolynomialCrc(bits: Bits): Register {
    Divide(Zeros(16), bits + Zeros(16))
  }

  lemma SplitDividend(r: Register, b: Bits)
    requires |b| == 8
    ensures Divide(r, b + Zeros(16))
         == Xor(Divide(r, Zeros(24)), Divide(Zeros(16), b + Zeros(16)))
  {
    hide Divide;
    assert b + Zeros(16) == Xor(Zeros(24), b + Zeros(16));
    assert r == Xor(r, Zeros(16));
    DivideLinear(r, Zeros(16), Zeros(24), b + Zeros(16));
  }

  lemma LoadDividend(b: Bits)
    requires |b| == 8
    ensures Divide(Zeros(16), b + Zeros(16)) == Divide(b + Zeros(8), Zeros(8))
  {
    hide Divide;
    var word := b + Zeros(8);
    assert b + Zeros(16) == word + Zeros(8);
    DivideConcat(Zeros(16), word, Zeros(8));
    DivideShifts(Zeros(16), word);
    assert Zeros(16)[16..] + word == word;
  }

  lemma AppendEightBits(r: Register, b: Bits)
    requires |b| == 8
    ensures Divide(Divide(r, b), Zeros(16)) == Divide(Xor(Divide(r, Zeros(16)), b + Zeros(8)), Zeros(8))
  {
    hide Divide;
    DivideConcat(r, b, Zeros(16));
    SplitDividend(r, b);
    LoadDividend(b);
    assert Zeros(24) == Zeros(16) + Zeros(8);
    DivideConcat(r, Zeros(16), Zeros(8));
    assert Xor(Zeros(8), Zeros(8)) == Zeros(8);
    DivideLinear(Divide(r, Zeros(16)), b + Zeros(8), Zeros(8), Zeros(8));
  }

  lemma {:induction false} TableCrcContinues(crc: bv16, r: Register, data: Bytes)
    requires WordBits(crc) == Divide(r, Zeros(16))
    ensures WordBits(TableCrc(crc, data)) == Divide(r, MessageBits(data) + Zeros(16))
    decreases |data|
  {
    hide WordBits, TableStep, ByteBits, Step;
    if data == [] {
      assert MessageBits(data) + Zeros(16) == Zeros(16);
    } else {
      var b, rest := ByteBits(data[0]), MessageBits(data[1..]) + Zeros(16);
      TableStepDivides(crc, data[0]);
      AppendEightBits(r, b);
      TableCrcContinues(TableStep(crc, data[0]), Divide(r, b), data[1..]);
      DivideConcat(r, b, rest);
      assert MessageBits(data) + Zeros(16) == b + rest;
    }
  }

  lemma TableCrcIsPolynomialDivision(data: Bytes)
    ensures WordBits(TableCrc(0, data)) == PolynomialCrc(MessageBits(data))
  {
    WordBitsZero();
    DivideZerosOfZero(16);
    TableCrcContinues(0, Zeros(16), data);
  }

  // The table form may be stopped and resumed at any byte.
  lemma {:induction false} TableCrcConcat(crc: bv16, a: Bytes, b: Bytes)
    ensures TableCrc(crc, a + b) == TableCrc(TableCrc(crc, a), b)
    decreases |a|
  {
    hide TableStep;
    if a == [] {
      assert a + b == b;
    } else {
      assert (a + b)[1..] == a[1..] + b;
      TableCrcConcat(TableStep(crc, a[0]), a[1..], b);
    }
  }

  // One byte more.
  lemma TableCrcNext(crc: bv16, data: Bytes, b: bv8)
    ensures TableCrc(crc, data + [b]) == TableStep(TableCrc(crc, data), b)
  {
    hide TableStep;
    TableCrcConcat(crc, data, [b]);
    assert [b][1..] == [];
  }

  lemma {:induction false} MessageBitsConcat(a: Bytes, b: Bytes)
    ensures MessageBits(a + b) == MessageBits(a) + MessageBits(b)
  {
    hide ByteBits;
    if a == [] {
      assert a + b == b;
    } else {
      assert (a + b)[1..] == a[1..] + b;
      MessageBitsConcat(a[1..], b);
    }
  }

  /* The receiver's check. */

  // The two trailing bytes read as one word.
  function Trailer(data: Bytes): bv16
    requires |data| >= 2
  {
    BigEndian(data[|data| - 2], data[|data| - 1])
  }

  function BigEndian(hi: bv8, lo: bv8): bv16 {
    ((hi as bv16) << 8) + (lo as bv16)
  }

  function TrailerBytes(crc: bv16): Bytes {
    [(crc >> 8) as bv8, (crc & 0xFF) as bv8]
  }

  predicate Accepts(data: Bytes) {
    |data| >= 2 && TableCrc(0, data[..|data| - 2]) == Trailer(data)
  }

  lemma TrailerRoundTrip(payload: Bytes, crc: bv16)
    ensures Trailer(payload + TrailerBytes(crc)) == crc
  {
    var data := payload + TrailerBytes(crc);
    assert data[|data| - 2] == (crc >> 8) as bv8;
    assert data[|data| - 1] == (crc & 0xFF) as bv8;
  }

  // What the uploader appends is what the receiver accepts.
  lemma SenderIsAccepted(payload: Bytes)
    ensures Accepts(payload + TrailerBytes(TableCrc(0, payload)))
  {
    hide TableCrc, Trailer;
    var data := payload + TrailerBytes(TableCrc(0, payload));
    assert |data| == |payload| + 2;
    hide TrailerBytes;
    assert data[..|data| - 2] == payload;
    TrailerRoundTrip(payload, TableCrc(0, payload));
  }

  lemma BigEndianIsXor(hi: bv8, lo: bv8)
    ensures BigEndian(hi, lo) == ((hi as bv16) << 8) ^ (lo as bv16)
  {
  }

  lemma LowByteBits(b: bv8)
    ensures WordBits(b as bv16) == Zeros(8) + ByteBits(b)
  {
    hide On, Mask;
    forall k: nat | k < 8 {
      OnByte(b, k);
    }
  }

  lemma BigEndianBits(hi: bv8, lo: bv8)
    ensures WordBits(BigEndian(hi, lo)) == ByteBits(hi) + ByteBits(lo)
  {
    hide *;
    var high, low := (hi as bv16) << 8, lo as bv16;
    SumBits(hi, lo, high, low);
    WordBitsShiftByte(hi as bv16);
    LowByteBits(hi);
    LowByteBits(lo);
    assert Xor(WordBits(high), WordBits(low)) == ByteBits(hi) + ByteBits(lo);
  }

  lemma SumBits(hi: bv8, lo: bv8, high: bv16, low: bv16)
    requires high == (hi as bv16) << 8 && low == lo as bv16
    ensures WordBits(BigEndian(hi, lo)) == Xor(WordBits(high), WordBits(low))
  {
    BigEndianIsXor(hi, lo);
    hide *;
    WordBitsXor(high, low);
  }

  lemma TwoBytes(data: Bytes)
    requires |data| == 2
    ensures MessageBits(data) == ByteBits(data[0]) + ByteBits(data[1])
  {
    hide ByteBits;
    assert data[1..][1..] == [] && data[1..][0] == data[1];
  }

  lemma TrailerBits(data: Bytes)
    requires |data| == 2
    ensures WordBits(Trailer(data)) == MessageBits(data)
  {
    hide BigEndian, WordBits, ByteBits;
    TwoBytes(data);
    BigEndianBits(data[0], data[1]);
  }

  lemma AcceptedParts(payload: Bytes, trailer: Bytes)
    requires |trailer| == 2
    ensures Accepts(payload + trailer) <==> PolynomialCrc(MessageBits(payload)) == MessageBits(trailer)
  {
    TableCrcIsPolynomialDivision(payload);
    TrailerBits(trailer);
    var data := payload + trailer;
    assert data[..|data| - 2] == payload && Trailer(data) == Trailer(trailer);
    hide TableCrc, Trailer, WordBits, MessageBits, PolynomialCrc;
    if WordBits(TableCrc(0, payload)) == WordBits(Trailer(data)) {
      WordBitsInjective(TableCrc(0, payload), Trailer(data));
    }
  }

  // A frame is accepted exactly when the whole of it, trailer included, divides evenly.
  lemma AcceptsIffZeroRemainder(data: Bytes)
    requires |data| >= 2
    ensures Accepts(data) <==> Divide(Zeros(16), MessageBits(data)) == Zeros(16)
  {
    hide *;
    var payload, trailer := data[..|data| - 2], data[|data| - 2..];
    assert data == payload + trailer;
    AcceptedParts(payload, trailer);
    MessageBitsConcat(payload, trailer);
    RemainderOfFrame(MessageBits(payload), MessageBits(trailer));
  }

  lemma RemainderOfFrame(p: Bits, t: Bits)
    requires |t| == 16
    ensures Divide(Zeros(16), p + t) == Xor(PolynomialCrc(p), t)
    ensures Divide(Zeros(16), p + t) == Zeros(16) <==> PolynomialCrc(p) == t
  {
    var crc := PolynomialCrc(p);
    assert p + t == Xor(p + Zeros(16), Zeros(|p|) + t);
    assert Zeros(16) == Xor(Zeros(16), Zeros(16));
    DivideLinear(Zeros(16), Zeros(16), p + Zeros(16), Zeros(|p|) + t);
    DivideConcat(Zeros(16), Zeros(|p|), t);
    DivideZerosOfZero(|p|);
    DivideShifts(Zeros(16), t);
    assert Zeros(16)[16..] + t == t;
    XorZeroIffEqual(crc, t);
  }

  lemma XorZeroIffEqual(a: Bits, b: Bits)
    requires |a| == |b|
    ensures Xor(a, b) == Zeros(|a|) <==> a == b
  {
    if Xor(a, b) == Zeros(|a|) {
      forall i | 0 <= i < |a| ensures a[i] == b[i] {
        assert Xor(a, b)[i] == Zeros(|a|)[i];
      }
    }
  }

  // Accepted frames are the code words: the multiples of the generator polynomial.
  lemma AcceptedFramesAreMultiples(data: Bytes)
    requires |data| >= 2
    ensures Accepts(data)
       <==> exists q: Bits :: |q| == 8 * |data| && TimesGenerator(q) == Zeros(16) + MessageBits(data)
  {
    AcceptsIffZeroRemainder(data);
    DividesIffMultiple(MessageBits(data));
  }

  /* Error detection. */

  lemma DifferenceDivides(a: Bytes, b: Bytes)
    requires |a| == |b| && Accepts(a) && Accepts(b)
    ensures Divide(Zeros(16), Xor(MessageBits(a), MessageBits(b))) == Zeros(16)
  {
    AcceptsIffZeroRemainder(a);
    AcceptsIffZeroRemainder(b);
    assert Xor(Zeros(16), Zeros(16)) == Zeros(16);
    DivideLinear(Zeros(16), Zeros(16), MessageBits(a), MessageBits(b));
  }

  // A pattern that begins and ends within sixteen bits never divides evenly.
  lemma ShortBurstHasRemainder(before: nat, burst: Bits, after: nat)
    requires 0 < |burst| <= 16 && burst[0]
    ensures Divide(Zeros(16), Zeros(before) + burst + Zeros(after)) != Zeros(16)
  {
    DivideConcat(Zeros(16), Zeros(before) + burst, Zeros(after));
    DivideConcat(Zeros(16), Zeros(before), burst);
    DivideZerosOfZero(before);
    DivideShifts(Zeros(16), burst);
    var loaded: Register := Zeros(16)[|burst|..] + burst;
    assert loaded[16 - |burst|] && loaded != Zeros(16);
    if Divide(loaded, Zeros(after)) == Zeros(16) {
      DivideZerosKernel(loaded, after);
    }
  }

  // The error of length |d| spans more than sixteen bits: two set bits lie that far apart.
  ghost predicate SpansMoreThan16(d: Bits) {
    exists i, j :: 0 <= i < j < |d| && d[i] && d[j] && j - i >= 16
  }

  lemma NarrowErrorHasRemainder(d: Bits, p: nat)
    requires p < |d| && d[p] && forall i | 0 <= i < p :: !d[i]
    requires !SpansMoreThan16(d)
    ensures Divide(Zeros(16), d) != Zeros(16)
  {
    hide Divide;
    var end := if p + 16 <= |d| then p + 16 else |d|;
    forall j | end <= j < |d| ensures !d[j] {
      assert p < j && j - p >= 16;
    }
    hide SpansMoreThan16;
    ZerosAround(d, p, end);
    ShortBurstHasRemainder(p, d[p..end], |d| - end);
  }

  lemma ZerosAround(d: Bits, p: nat, end: nat)
    requires p <= end <= |d|
    requires forall i | 0 <= i < p :: !d[i]
    requires forall j | end <= j < |d| :: !d[j]
    ensures d == Zeros(p) + d[p..end] + Zeros(|d| - end)
  {
    assert d == d[..p] + d[p..end] + d[end..];
    assert d[..p] == Zeros(p) && d[end..] == Zeros(|d| - end);
  }

  lemma EvenDivisionSpans(d: Bits)
    requires Divide(Zeros(16), d) == Zeros(16)
    requires exists i :: 0 <= i < |d| && d[i]
    ensures SpansMoreThan16(d)
  {
    var p := FirstSet(d);
    if !SpansMoreThan16(d) {
      NarrowErrorHasRemainder(d, p);
    }
  }

  lemma FirstSet(d: Bits) returns (p: nat)
    requires exists i :: 0 <= i < |d| && d[i]
    ensures p < |d| && d[p] && forall i | 0 <= i < p :: !d[i]
  {
    p := 0;
    while !d[p]
      invariant p < |d| && forall i | 0 <= i < p :: !d[i]
      decreases |d| - p
    {
      p := p + 1;
    }
  }

  lemma {:induction false} MessageBitsInjective(a: Bytes, b: Bytes)
    requires |a| == |b| && MessageBits(a) == MessageBits(b)
    ensures a == b
    decreases |a|
  {
    if a != [] {
      assert ByteBits(a[0]) == MessageBits(a)[..8] && MessageBits(a[1..]) == MessageBits(a)[8..];
      assert ByteBits(b[0]) == MessageBits(b)[..8] && MessageBits(b[1..]) == MessageBits(b)[8..];
      hide ByteBits;
      ByteBitsInjective(a[0], b[0]);
      MessageBitsInjective(a[1..], b[1..]);
      assert a == [a[0]] + a[1..] && b == [b[0]] + b[1..];
    }
  }

  lemma ByteBitsInjective(x: bv8, y: bv8)
    requires ByteBits(x) == ByteBits(y)
    ensures x == y
  {
    hide On;
    var s, t := WordBits(x as bv16), WordBits(y as bv16);
    forall k: nat | k < 16 ensures s[k] == t[k] {
      if k < 8 {
        OnByte(x, k);
        OnByte(y, k);
      } else {
        assert s[k] == ByteBits(x)[k - 8] && t[k] == ByteBits(y)[k - 8];
      }
    }
    WordBitsInjective(x as bv16, y as bv16);
  }

  // No two frames of equal length that both pass the check differ by a burst of at most
  // sixteen bits, however long the frames are.
  lemma BurstDetection(a: Bytes, b: Bytes)
    requires |a| == |b| && a != b
    requires Accepts(a) && Accepts(b)
    ensures SpansMoreThan16(Xor(MessageBits(a), MessageBits(b)))
  {
    var d := Xor(MessageBits(a), MessageBits(b));
    DifferenceDivides(a, b);
    if forall i | 0 <= i < |d| :: !d[i] {
      assert d == Zeros(|d|);
      XorZeroIffEqual(MessageBits(a), MessageBits(b));
      MessageBitsInjective(a, b);
    }
    EvenDivisionSpans(d);
  }

  // Nor do they ever differ in an odd number of bits.
  lemma OddErrorDetection(a: Bytes, b: Bytes)
    requires |a| == |b| && Accepts(a) && Accepts(b)
    ensures Weight(Xor(MessageBits(a), MessageBits(b))) % 2 == 0
  {
    hide *;
    DifferenceDivides(a, b);
    DivideKeepsParity(Zeros(16), Xor(MessageBits(a), MessageBits(b)));
    ZerosWeight(16);
  }

  // The bound of sixteen bits is exact: these two accepted frames differ by a burst of 17,
  // from bit 7 to bit 23.
  lemma SeventeenBitBurstPasses()
    ensures Accepts([0x00, 0x00, 0x00]) && Accepts([0x01, 0x10, 0x21])
    ensures var d := Xor(MessageBits([0x00, 0x00, 0x00]), MessageBits([0x01, 0x10, 0x21]));
            |d| == 24 && d[7] && d[23] && forall k | 0 <= k < 7 :: !d[k]
  {
    var zero, one := [0x00 as bv8], [0x01 as bv8];
    assert zero[1..] == [] && one[1..] == [];
    assert TableCrc(0, zero) == TableStep(0, 0) == 0;
    assert TableCrc(0, one) == TableStep(0, 1) == 0x1021;
    assert [0x00 as bv8, 0x00, 0x00][..1] == zero;
    assert [0x01 as bv8, 0x10, 0x21][..1] == one;
    BurstBits();
  }

  lemma BurstBits()
    ensures var d := Xor(MessageBits([0x00, 0x00, 0x00]), MessageBits([0x01, 0x10, 0x21]));
            |d| == 24 && d[7] && d[23] && forall k | 0 <= k < 7 :: !d[k]
  {
    OuterBits();
    hide ByteBits, MessageBits;
    ThreeBytes(0x00, 0x00, 0x00);
    ThreeBytes(0x01, 0x10, 0x21);
  }

  lemma ThreeBytes(a: bv8, b: bv8, c: bv8)
    ensures MessageBits([a, b, c]) == ByteBits(a) + ByteBits(b) + ByteBits(c)
  {
    hide ByteBits;
    assert [a, b, c][1..] == [b, c];
    TwoBytes([b, c]);
  }

  lemma OuterBits()
    ensures forall k | 0 <= k < 8 :: !ByteBits(0)[k] && (ByteBits(1)[k] <==> k == 7)
    ensures ByteBits(0x21)[7]
  {
    forall k | 0 <= k < 8 ensures !ByteBits(0)[k] && (ByteBits(1)[k] <==> k == 7) {
      assert ByteBits(0)[k] == On(0, Mask(8 + k)) && ByteBits(1)[k] == On(1, Mask(8 + k));
    }
    assert ByteBits(0x21)[7] == On(0x21, Mask(15));
  }
}
