/**
  Two flipped bits: the order of x modulo the CRC's generator, and what it means for the
  detection of double errors.
*/
module DoubleErrors {
  import opened CrcTables
  import opened Gf2
  import opened Crc
  import Words

  /* Powers of x, as the register holds them. */

  function XPow(n: nat): bv16 {
    if n == 0 then 1 else ZeroStep(XPow(n - 1))
  }

  // The sum of two polynomials.
  function Plus(x: bv16, y: bv16): bv16 {
    x ^ y
  }

  lemma {:induction false} StepsOfPower(m: nat, n: nat)
    ensures ZeroSteps(XPow(m), n) == XPow(m + n)
    decreases n
  {
    hide ZeroStep;
    if n > 0 {
      assert XPow(m + 1) == ZeroStep(XPow(m));
      StepsOfPower(m + 1, n - 1);
    }
  }

  lemma PlusIsXor(x: bv16, y: bv16)
    ensures WordBits(Plus(x, y)) == Xor(WordBits(x), WordBits(y))
  {
    hide WordBits;
    WordBitsXor(x, y);
  }

  lemma StepsLinear(x: bv16, y: bv16, n: nat)
    ensures ZeroSteps(Plus(x, y), n) == Plus(ZeroSteps(x, n), ZeroSteps(y, n))
  {
    hide *;
    var z, zx, zy := ZeroSteps(Plus(x, y), n), ZeroSteps(x, n), ZeroSteps(y, n);
    ZeroStepsIsDivide(Plus(x, y), n);
    ZeroStepsIsDivide(x, n);
    ZeroStepsIsDivide(y, n);
    PlusIsXor(x, y);
    assert Xor(Zeros(n), Zeros(n)) == Zeros(n);
    DivideLinear(WordBits(x), WordBits(y), Zeros(n), Zeros(n));
    PlusIsXor(zx, zy);
    WordBitsInjective(z, Plus(zx, zy));
  }

  lemma StepsOfNothing(n: nat)
    ensures ZeroSteps(0, n) == 0
  {
    hide *;
    ZeroStepsIsDivide(0, n);
    WordBitsZero();
    DivideZerosOfZero(n);
    WordBitsInjective(ZeroSteps(0, n), 0);
  }

  lemma {:induction false} OneStepMore(a: bv16, n: nat)
    ensures ZeroSteps(ZeroStep(a), n) == ZeroStep(ZeroSteps(a, n))
    decreases n
  {
    hide ZeroStep;
    if n > 0 {
      OneStepMore(ZeroStep(a), n - 1);
    }
  }

  /* Products, bit by bit from the top of b (Horner's rule). */

  function Bit(k: nat): bv16 {
    match k
    case 0 => 0x0001 case 1 => 0x0002 case 2 => 0x0004 case 3 => 0x0008
    case 4 => 0x0010 case 5 => 0x0020 case 6 => 0x0040 case 7 => 0x0080
    case 8 => 0x0100 case 9 => 0x0200 case 10 => 0x0400 case 11 => 0x0800
    case 12 => 0x1000 case 13 => 0x2000 case 14 => 0x4000 case _ => 0x8000
  }

  function Term(a: bv16, b: bv16, m: bv16): bv16 {
    if b & m != 0 then a else 0
  }

  // One more bit of b, under the given mask, and four of them.
  function OneBit(c: bv16, a: bv16, b: bv16, m: bv16): bv16 {
    (if c & 0x8000 != 0 then (c << 1) ^ 0x1021 else c << 1) ^ (if b & m != 0 then a else 0)
  }

  lemma OneBitParts(c: bv16, a: bv16, b: bv16, m: bv16)
    ensures OneBit(c, a, b, m) == Plus(ZeroStep(c), Term(a, b, m))
  {
    assert Plus(ZeroStep(c), Term(a, b, m)) == ZeroStep(c) ^ Term(a, b, m);
  }

  function FourBits(c: bv16, a: bv16, b: bv16, m3: bv16, m2: bv16, m1: bv16, m0: bv16): bv16 {
    OneBit(OneBit(OneBit(OneBit(c, a, b, m3), a, b, m2), a, b, m1), a, b, m0)
  }

  // The product of a and the highest j bits of b.
  function Product(a: bv16, b: bv16, j: nat): bv16
    requires j <= 16
  {
    if j == 0 then 0 else OneBit(Product(a, b, j - 1), a, b, Bit(16 - j))
  }

  lemma TermShifted(b: bv16, m: bv16, n: nat)
    ensures ZeroSteps(Term(1, b, m), n) == Term(XPow(n), b, m)
  {
    hide ZeroStep, ZeroSteps;
    StepsOfNothing(n);
    StepsOfPower(0, n);
  }

  lemma {:induction false} ProductShifted(b: bv16, n: nat, j: nat)
    requires j <= 16
    ensures ZeroSteps(Product(1, b, j), n) == Product(XPow(n), b, j)
    decreases j
  {
    hide ZeroStep, ZeroSteps, XPow, Bit, Term, Plus, OneBit;
    if j == 0 {
      StepsOfNothing(n);
    } else {
      var before := Product(1, b, j - 1);
      OneBitParts(before, 1, b, Bit(16 - j));
      OneBitParts(Product(XPow(n), b, j - 1), XPow(n), b, Bit(16 - j));
      StepsLinear(ZeroStep(before), Term(1, b, Bit(16 - j)), n);
      OneStepMore(before, n);
      ProductShifted(b, n, j - 1);
      TermShifted(b, Bit(16 - j), n);
    }
  }

  lemma FourBitsMore(a: bv16, b: bv16, j: nat)
    requires j <= 12
    ensures Product(a, b, j + 4)
         == FourBits(Product(a, b, j), a, b, Bit(15 - j), Bit(14 - j), Bit(13 - j), Bit(12 - j))
  {
    hide Bit, OneBit;
    assert Product(a, b, j + 1) == OneBit(Product(a, b, j), a, b, Bit(15 - j));
    assert Product(a, b, j + 2) == OneBit(Product(a, b, j + 1), a, b, Bit(14 - j));
    assert Product(a, b, j + 3) == OneBit(Product(a, b, j + 2), a, b, Bit(13 - j));
    assert Product(a, b, j + 4) == OneBit(Product(a, b, j + 3), a, b, Bit(12 - j));
    hide Product;
  }

  lemma HighNibble(b: bv16)
    ensures FourBits(0, 1, b, 0x8000, 0x4000, 0x2000, 0x1000) == b >> 12
  {
  }

  lemma HighByte(b: bv16)
    ensures FourBits(b >> 12, 1, b, 0x0800, 0x0400, 0x0200, 0x0100) == b >> 8
  {
  }

  lemma HighTwelve(b: bv16)
    ensures FourBits(b >> 8, 1, b, 0x0080, 0x0040, 0x0020, 0x0010) == b >> 4
  {
  }

  lemma Whole(b: bv16)
    ensures FourBits(b >> 4, 1, b, 0x0008, 0x0004, 0x0002, 0x0001) == b
  {
  }

  // One times b is b.
  lemma ProductWithOne(b: bv16)
    ensures Product(1, b, 16) == b
  {
    HighNibble(b);
    HighByte(b);
    HighTwelve(b);
    Whole(b);
    assert Product(1, b, 0) == 0;
    hide Product, FourBits;
    FourBitsMore(1, b, 0);
    FourBitsMore(1, b, 4);
    FourBitsMore(1, b, 8);
    FourBitsMore(1, b, 12);
  }

  // The square of a, worked out four bits at a time.
  lemma Squared(a: bv16, c1: bv16, c2: bv16, c3: bv16, c4: bv16)
    requires FourBits(0, a, a, 0x8000, 0x4000, 0x2000, 0x1000) == c1
    requires FourBits(c1, a, a, 0x0800, 0x0400, 0x0200, 0x0100) == c2
    requires FourBits(c2, a, a, 0x0080, 0x0040, 0x0020, 0x0010) == c3
    requires FourBits(c3, a, a, 0x0008, 0x0004, 0x0002, 0x0001) == c4
    ensures Product(a, a, 16) == c4
  {
    assert Product(a, a, 0) == 0;
    hide Product, FourBits;
    FourBitsMore(a, a, 0);
    FourBitsMore(a, a, 4);
    FourBitsMore(a, a, 8);
    FourBitsMore(a, a, 12);
  }

  lemma Doubled(n: nat, a: bv16, c1: bv16, c2: bv16, c3: bv16, c4: bv16)
    requires XPow(n) == a
    requires FourBits(0, a, a, 0x8000, 0x4000, 0x2000, 0x1000) == c1
    requires FourBits(c1, a, a, 0x0800, 0x0400, 0x0200, 0x0100) == c2
    requires FourBits(c2, a, a, 0x0080, 0x0040, 0x0020, 0x0010) == c3
    requires FourBits(c3, a, a, 0x0008, 0x0004, 0x0002, 0x0001) == c4
    ensures XPow(2 * n) == c4
  {
    hide *;
    Squared(a, c1, c2, c3, c4);
    ProductWithOne(a);
    ProductShifted(a, n, 16);
    StepsOfPower(n, n);
  }

  lemma DoubledPlusOne(n: nat, a: bv16, c1: bv16, c2: bv16, c3: bv16, c4: bv16, value: bv16)
    requires XPow(n) == a
    requires FourBits(0, a, a, 0x8000, 0x4000, 0x2000, 0x1000) == c1
    requires FourBits(c1, a, a, 0x0800, 0x0400, 0x0200, 0x0100) == c2
    requires FourBits(c2, a, a, 0x0080, 0x0040, 0x0020, 0x0010) == c3
    requires FourBits(c3, a, a, 0x0008, 0x0004, 0x0002, 0x0001) == c4
    requires ZeroStep(c4) == value
    ensures XPow(2 * n + 1) == value
  {
    assert XPow(2 * n + 1) == ZeroStep(XPow(2 * n));
    hide *;
    Doubled(n, a, c1, c2, c3, c4);
  }

  lemma {:induction false} LowPower(k: nat)
    requires k < 16
    ensures XPow(k) == Bit(k)
    decreases k
  {
    if k > 0 {
      LowPower(k - 1);
      NextBit(k);
      hide Bit, ZeroStep;
    }
  }

  lemma NextBit(k: nat)
    requires 0 < k < 16
    ensures ZeroStep(Bit(k - 1)) == Bit(k)
  {
  }

  /* x to the 32767 is 1, and no earlier power along its prime factors is. */

  lemma PowerOf32767()
    ensures XPow(32767) == 0x0001
  {
    LowPower(15);
    assert XPow(15) == 0x8000;
    hide XPow, Bit, Product;
    DoubledPlusOne(15, 0x8000, 0x4084, 0x48C4, 0xCCC4, 0x0DCC, 0x1B98);
    DoubledPlusOne(31, 0x1B98, 0x1B98, 0x59C9, 0x0B6D, 0x6A10, 0xD420);
    DoubledPlusOne(63, 0xD420, 0x7505, 0x4054, 0xFDA5, 0x2BBF, 0x577E);
    DoubledPlusOne(127, 0x577E, 0x1AA7, 0x0E0A, 0x54FB, 0x6782, 0xCF04);
    DoubledPlusOne(255, 0xCF04, 0x1495, 0x0CC9, 0xCC90, 0x04FF, 0x09FE);
    DoubledPlusOne(511, 0x09FE, 0x0000, 0x460E, 0x526E, 0x0DB1, 0x1B62);
    DoubledPlusOne(1023, 0x1B62, 0x1B62, 0x50B7, 0x0099, 0x3F54, 0x7EA8);
    DoubledPlusOne(2047, 0x7EA8, 0x6979, 0x25A4, 0x4271, 0xA2B7, 0x554F);
    DoubledPlusOne(4095, 0x554F, 0x1052, 0x0553, 0x102D, 0x2207, 0x440E);
    DoubledPlusOne(8191, 0x440E, 0x0019, 0x0189, 0x1890, 0x1116, 0x222C);
    DoubledPlusOne(16383, 0x222C, 0x4458, 0x415C, 0x111C, 0x8810, 0x0001);
  }

  lemma PowerOf4681()
    ensures XPow(4681) == 0x2C42
  {
    LowPower(9);
    assert XPow(9) == 0x0200;
    hide XPow, Bit, Product;
    Doubled(9, 0x0200, 0x0000, 0x0400, 0x4000, 0x4084);
    Doubled(18, 0x4084, 0x1231, 0x3331, 0x2711, 0x4363);
    DoubledPlusOne(36, 0x4363, 0x1DAD, 0x0F54, 0x6E2B, 0x47D3, 0x8FA6);
    Doubled(73, 0x8FA6, 0x3DB4, 0x4886, 0xFA3D, 0x4388);
    Doubled(146, 0x4388, 0x1E01, 0x34A9, 0x46F1, 0x1396);
    DoubledPlusOne(292, 0x1396, 0x1396, 0x1DFB, 0x40B7, 0x2280, 0x4500);
    Doubled(585, 0x4500, 0x0421, 0x0331, 0x3310, 0x0163);
    Doubled(1170, 0x0163, 0x0000, 0x0163, 0x117A, 0x0424);
    DoubledPlusOne(2340, 0x0424, 0x0000, 0x1090, 0x1169, 0x1621, 0x2C42);
  }

  lemma PowerOf1057()
    ensures XPow(1057) == 0xF2AF
  {
    LowPower(8);
    assert XPow(8) == 0x0100;
    hide XPow, Bit, Product;
    Doubled(8, 0x0100, 0x0000, 0x0100, 0x1000, 0x1021);
    DoubledPlusOne(16, 0x1021, 0x1021, 0x1231, 0x1373, 0x3730, 0x6E60);
    Doubled(33, 0x6E60, 0x7561, 0x10F5, 0x6A10, 0xC1C6);
    Doubled(66, 0xC1C6, 0x598D, 0x09B3, 0xC2BD, 0x4E8A);
    Doubled(132, 0x4E8A, 0x2A09, 0x63DD, 0x0904, 0x5946);
    Doubled(264, 0x5946, 0x2C7F, 0x5486, 0x6DFC, 0x78B3);
    DoubledPlusOne(528, 0x78B3, 0x7B38, 0x369C, 0x258D, 0xF147, 0xF2AF);
  }

  lemma PowerOf217()
    ensures XPow(217) == 0x48E3
  {
    LowPower(13);
    assert XPow(13) == 0x2000;
    hide XPow, Bit, Product;
    DoubledPlusOne(13, 0x2000, 0x4000, 0x4084, 0x48C4, 0xCCC4, 0x89A9);
    Doubled(27, 0x89A9, 0x0DCC, 0x58A5, 0xD44A, 0x1168);
    Doubled(54, 0x1168, 0x1168, 0x17C9, 0x0BC1, 0x3750);
    DoubledPlusOne(108, 0x3750, 0x59F0, 0x4B15, 0x1BC4, 0xAC61, 0x48E3);
  }

  /* So 32767 is the order of x. */

  lemma {:induction false} PowerOfMultiple(o: nat, k: nat)
    requires XPow(o) == 1
    ensures XPow(k * o) == 1
    decreases k
  {
    hide XPow;
    if k == 0 {
      LowPower(0);
    } else {
      PowerOfMultiple(o, k - 1);
      assert k * o == (k - 1) * o + o;
      StepsOfPower((k - 1) * o, o);
      StepsOfPower(0, o);
      LowPower(0);
    }
  }

  lemma PowerOfRemainder(d: nat, o: nat)
    requires o > 0 && XPow(o) == 1
    ensures XPow(d) == XPow(d % o)
  {
    hide XPow;
    PowerOfMultiple(o, d / o);
    assert d == d / o * o + d % o;
    StepsOfPower(d / o * o, d % o);
    StepsOfPower(0, d % o);
    LowPower(0);
  }

  lemma {:induction false} LeastPower(n: nat) returns (o: nat)
    requires n > 0 && XPow(n) == 1
    ensures 0 < o <= n && XPow(o) == 1 && forall k | 0 < k < o :: XPow(k) != 1
    decreases n
  {
    hide XPow;
    if k: nat :| 0 < k < n && XPow(k) == 1 {
      o := LeastPower(k);
    } else {
      o := n;
    }
  }

  // Euclid's lemma for the prime factors of 32767.
  lemma NoFactor(p: nat, s: nat)
    requires p in {7, 31, 151} && 1 < s < p
    ensures p % s != 0
  {
    if p % s == 0 {
      var k := p / s;
      assert p == k * s;
      Smaller(p, k, s);
    }
  }

  // One of two factors is at most 12, and none such divides these primes.
  lemma Smaller(p: nat, k: nat, s: nat)
    requires p in {7, 31, 151} && 1 < s < p
    ensures p != k * s
  {
    OneIsSmall(k, s);
    assert k == 0 ==> k * s == 0;
    assert k == 1 ==> k * s == s;
    if k > 1 {
      if s < 13 {
        SmallFactor(p, s, k);
      } else if k < 13 {
        SmallFactor(p, k, s);
      }
    }
  }

  lemma OneIsSmall(k: nat, s: nat)
    ensures k < 13 || s < 13 || k * s >= 169
  {
    if k >= 13 && s >= 13 {
      assert (k - 13) * s >= 0;
      assert (k - 13) * s == k * s - 13 * s;
    }
  }

  lemma SmallFactor(p: nat, s: nat, k: nat)
    requires p in {7, 31, 151} && 1 < s < 13 && k > 1
    ensures p != k * s
  {
    match s
    case 2 => case 3 => case 4 => case 5 => case 6 => case 7 => case 8 => case 9 =>
    case 10 => case 11 => case 12 =>
  }

  lemma {:induction false} PrimeDivides(p: nat, r: nat, y: nat)
    requires p in {7, 31, 151} && 0 < r < p && (r * y) % p == 0
    ensures y % p == 0
    decreases r
  {
    if r == 1 {
      assert r * y == y;
    } else {
      NoFactor(p, r);
      EuclidStep(p, r, y);
      PrimeDivides(p, p % r, y);
    }
  }

  lemma EuclidStep(p: nat, r: nat, y: nat)
    requires 0 < r < p && (r * y) % p == 0
    ensures (p % r * y) % p == 0
  {
    var k, m := p / r, r * y / p;
    Words.QuotientBounds(r * y, p);
    assert r * y == m * p;
    assert p % r == p - k * r;
    Rearranged(p, r, y, k, m);
    MultipleHasNoRemainder(y - k * m, p);
  }

  lemma Rearranged(p: int, r: int, y: int, k: int, m: int)
    requires r * y == m * p
    ensures (p - k * r) * y == (y - k * m) * p
  {
    assert (p - k * r) * y == p * y - k * (r * y);
    assert (y - k * m) * p == y * p - k * (m * p);
  }

  lemma MultipleHasNoRemainder(k: int, p: nat)
    requires p > 0
    ensures k * p % p == 0
  {
    Words.Remainder(k * p, k, 0, p);
  }

  // If a prime factor does not divide q, it divides the other factor.
  lemma OtherFactor(p: nat, q: nat, o: nat, m: nat) returns (rest: nat)
    requires p in {7, 31, 151} && q * o == p * m && q % p != 0
    ensures o == p * rest && q * rest == m
  {
    DividesRest(p, q, o, m);
    MultipleHasNoRemainder(m - q / p * o, p);
    PrimeDivides(p, q % p, o);
    rest := o / p;
    Exchanged(p, q, rest);
    Cancel(p, q * rest, m);
  }

  lemma Exchanged(p: int, q: int, rest: int)
    ensures q * (p * rest) == p * (q * rest)
  {
  }

  lemma DividesRest(p: nat, q: nat, o: nat, m: nat)
    requires p > 0 && q * o == p * m
    ensures q % p * o == (m - q / p * o) * p
  {
    var k, r := q / p, q % p;
    assert q == k * p + r;
    assert (k * p + r) * o == k * p * o + r * o;
    assert (m - k * o) * p == m * p - k * o * p;
    assert k * p * o == k * o * p;
  }

  lemma Cancel(p: nat, x: int, y: int)
    requires p > 0
    ensures p * x == p * y ==> x == y
  {
    if x < y {
      Words.Multiples(x, y, p);
    } else if y < x {
      Words.Multiples(y, x, p);
    }
  }

  lemma NoPrimeFactorLeft(q: nat, o: nat)
    requires q * o == 32767 && q % 7 != 0 && q % 31 != 0 && q % 151 != 0
    ensures q == 1
  {
    var a := OtherFactor(7, q, o, 4681);
    var b := OtherFactor(31, q, a, 151);
    var c := OtherFactor(151, q, b, 1);
  }

  // Were p a factor of 32767 over the order, the order would divide 32767 / p.
  lemma NotAFactor(p: nat, q: nat, o: nat, m: nat)
    requires p > 0 && q * o == 32767 == p * m && XPow(o) == 1 && XPow(m) != 1
    ensures q % p != 0
  {
    hide XPow;
    if q % p == 0 {
      var k := q / p;
      assert q == p * k;
      assert p * (k * o) == p * m;
      assert k * o == m;
      PowerOfMultiple(o, k);
    }
  }

  lemma OrderIff(d: nat)
    ensures XPow(d) == 1 <==> d % 32767 == 0
  {
    hide XPow;
    PowerOf32767();
    PowerOf4681();
    PowerOf1057();
    PowerOf217();
    var o := LeastPower(32767);
    PowerOfRemainder(32767, o);
    var q := 32767 / o;
    assert q * o == 32767;
    NotAFactor(7, q, o, 4681);
    NotAFactor(31, q, o, 1057);
    NotAFactor(151, q, o, 217);
    NoPrimeFactorLeft(q, o);
    PowerOfRemainder(d, 32767);
    LowPower(0);
  }

  /* Two set bits, d apart. */

  function TwoBits(before: nat, d: nat, after: nat): (b: Bits)
    requires d > 0
    ensures |b| == before + d + 1 + after
    ensures forall i | 0 <= i < |b| :: b[i] <==> i == before || i == before + d
  {
    Zeros(before) + [true] + Zeros(d - 1) + [true] + Zeros(after)
  }

  lemma OneWord()
    ensures WordBits(1) == Zeros(15) + [true]
    ensures Divide(Zeros(16), [true]) == WordBits(1)
  {
    assert forall k: nat | k < 16 :: WordBits(1)[k] == On(1, Mask(k));
    DivideShifts(Zeros(16), [true]);
    assert Zeros(16)[1..] == Zeros(15);
  }

  // The second bit arrives when the register holds the power d - 1.
  lemma SecondBit(d: nat)
    requires d > 0
    ensures Divide(WordBits(XPow(d - 1)), [true]) == Xor(WordBits(XPow(d)), WordBits(1))
  {
    hide *;
    OneWord();
    ZeroStepsIsDivide(XPow(d - 1), 1);
    StepsOfPower(d - 1, 1);
    var r := WordBits(XPow(d - 1));
    assert Zeros(1) == [false] && Xor([false], [true]) == [true] && Xor(r, Zeros(16)) == r;
    DivideLinear(r, Zeros(16), [false], [true]);
  }

  lemma TwoBitsDivide(before: nat, d: nat, after: nat)
    requires d > 0
    ensures Divide(Zeros(16), TwoBits(before, d, after))
         == Divide(Xor(WordBits(XPow(d)), WordBits(1)), Zeros(after))
  {
    var a, b := Zeros(before) + [true], Zeros(d - 1);
    assert TwoBits(before, d, after) == a + b + [true] + Zeros(after);
    hide *;
    FirstBit(before, d);
    SecondBit(d);
    DivideConcat(Zeros(16), a + b + [true], Zeros(after));
    DivideConcat(Zeros(16), a + b, [true]);
    DivideConcat(Zeros(16), a, b);
  }

  // From the first bit on the register holds the powers.
  lemma FirstBit(before: nat, d: nat)
    requires d > 0
    ensures Divide(Divide(Zeros(16), Zeros(before) + [true]), Zeros(d - 1)) == WordBits(XPow(d - 1))
  {
    hide *;
    OneWord();
    DivideConcat(Zeros(16), Zeros(before), [true]);
    DivideZerosOfZero(before);
    ZeroStepsIsDivide(1, d - 1);
    StepsOfPower(0, d - 1);
    FirstPower();
  }

  lemma FirstPower()
    ensures XPow(0) == 1
  {
  }

  lemma TwoBitsDivideIff(before: nat, d: nat, after: nat)
    requires d > 0
    ensures Divide(Zeros(16), TwoBits(before, d, after)) == Zeros(16) <==> d % 32767 == 0
  {
    TwoBitsDivide(before, d, after);
    OrderIff(d);
    hide WordBits, XPow, Divide, TwoBits;
    var x, one := WordBits(XPow(d)), WordBits(1);
    XorZeroIffEqual(x, one);
    DivideZerosOfZero(after);
    if Divide(Xor(x, one), Zeros(after)) == Zeros(16) {
      DivideZerosKernel(Xor(x, one), after);
    }
    if x == one {
      WordBitsInjective(XPow(d), 1);
    }
  }

  // A frame that differs from an accepted one in exactly two bits is accepted, too, exactly
  // if the distance between the two is a multiple of 32767.
  lemma DoubleErrorPassesIff(a: Bytes, b: Bytes, before: nat, d: nat, after: nat)
    requires |a| == |b| >= 2 && Accepts(a) && d > 0
    requires Xor(MessageBits(a), MessageBits(b)) == TwoBits(before, d, after)
    ensures Accepts(b) <==> d % 32767 == 0
  {
    hide Accepts, Divide, MessageBits, TwoBits;
    AcceptsIffZeroRemainder(a);
    AcceptsIffZeroRemainder(b);
    assert Xor(Zeros(16), Zeros(16)) == Zeros(16);
    DivideLinear(Zeros(16), Zeros(16), MessageBits(a), MessageBits(b));
    var r := Divide(Zeros(16), MessageBits(b));
    assert Xor(Zeros(16), r) == r;
    TwoBitsDivideIff(before, d, after);
  }

  /* Frames of 4096 bytes are long enough for it. */

  function Nothing(n: nat): Bytes {
    seq(n, _ => 0)
  }

  lemma {:induction false} NothingBits(n: nat)
    ensures MessageBits(Nothing(n)) == Zeros(8 * n)
    decreases n
  {
    EndBytes();
    hide ByteBits;
    if n > 0 {
      assert Nothing(n)[1..] == Nothing(n - 1);
      NothingBits(n - 1);
    }
  }

  lemma EndBytes()
    ensures ByteBits(0x00) == Zeros(8) && ByteBits(0x80) == [true] + Zeros(7)
    ensures ByteBits(0x01) == Zeros(7) + [true]
  {
    forall k | 0 <= k < 8
      ensures !ByteBits(0x00)[k] && (ByteBits(0x80)[k] <==> k == 0) && (ByteBits(0x01)[k] <==> k == 7)
    {
      assert ByteBits(0x00)[k] == On(0x00, Mask(8 + k));
      assert ByteBits(0x80)[k] == On(0x80, Mask(8 + k));
      assert ByteBits(0x01)[k] == On(0x01, Mask(8 + k));
    }
  }

  lemma FirstAndLastBit()
    ensures MessageBits([0x80] + Nothing(4094) + [0x01]) == TwoBits(0, 32767, 0)
  {
    EndBytes();
    hide ByteBits;
    var first, last: Bytes := [0x80], [0x01];
    assert first[1..] == [] && last[1..] == [];
    MessageBitsConcat(first + Nothing(4094), last);
    MessageBitsConcat(first, Nothing(4094));
    NothingBits(4094);
    assert MessageBits(first) == [true] + Zeros(7) && MessageBits(last) == Zeros(7) + [true];
  }

  // These two differ in their first and last bits alone, and both are accepted.
  lemma DoubleErrorPasses()
    ensures Accepts(Nothing(4096)) && Accepts([0x80] + Nothing(4094) + [0x01])
    ensures Xor(MessageBits(Nothing(4096)), MessageBits([0x80] + Nothing(4094) + [0x01])) == TwoBits(0, 32767, 0)
  {
    hide Accepts, MessageBits, Divide;
    var a, b := Nothing(4096), [0x80] + Nothing(4094) + [0x01];
    NothingBits(4096);
    FirstAndLastBit();
    AcceptsIffZeroRemainder(a);
    DivideZerosOfZero(8 * 4096);
    assert Xor(MessageBits(a), MessageBits(b)) == TwoBits(0, 32767, 0);
    DoubleErrorPassesIff(a, b, 0, 32767, 0);
  }
}
