/**
  Polynomials over GF(2), written as sequences of coefficients, highest degree first, and
  their long division by the CRC generator x^16 + x^12 + x^5 + 1.  This is the reference
  definition that the table-driven code is measured against.
*/
module Gf2 {

  type Bits = seq<bool>

  function Zeros(n: nat): (z: Bits)
    ensures |z| == n
    ensures forall i | 0 <= i < n :: !z[i]
  {
    seq(n, _ => false)
  }

  function Xor(a: Bits, b: Bits): (c: Bits)
    requires |a| == |b|
    ensures |c| == |a|
    ensures forall i | 0 <= i < |a| :: c[i] == (a[i] != b[i])
  {
    seq(|a|, i requires 0 <= i < |a| => a[i] != b[i])
  }

  // 0x1021, the generator without its leading coefficient.
  predicate HasTerm(i: int) {
    i == 3 || i == 10 || i == 15
  }

  function Poly(): (p: Bits)
    ensures |p| == 16 && forall i | 0 <= i < 16 :: p[i] == HasTerm(i)
  {
    seq(16, i => HasTerm(i))
  }

  type Register = r: Bits | |r| == 16 witness Zeros(16)

  // The simple bit-serial algorithm: shift one message bit in, and subtract the
  // generator when a one is shifted out.
  function Step(reg: Register, bit: bool): (next: Register)
    ensures forall i | 0 <= i < 16 ::
              next[i] == ((if i < 15 then reg[i + 1] else bit) != (reg[0] && HasTerm(i)))
  {
    if reg[0] then Xor(reg[1..] + [bit], Poly()) else reg[1..] + [bit]
  }

  function Divide(reg: Register, bits: Bits): Register
    decreases |bits|
  {
    if bits == [] then reg else Divide(Step(reg, bits[0]), bits[1..])
  }

  // The bits popped out of the register are the quotient.
  function Quotient(reg: Register, bits: Bits): (q: Bits)
    ensures |q| == |bits|
    decreases |bits|
  {
    if bits == [] then [] else [reg[0]] + Quotient(Step(reg, bits[0]), bits[1..])
  }

  // Coefficient i, counted from the top, of q * (x^16 + x^12 + x^5 + 1).
  predicate ProductTerm(q: Bits, i: int)
    decreases |q|
  {
    q != [] && (q[0] && (i == 0 || (1 <= i && HasTerm(i - 1)))) != ProductTerm(q[1..], i - 1)
  }

  function TimesGenerator(q: Bits): (p: Bits)
    ensures |p| == |q| + 16
    ensures forall i | 0 <= i < |p| :: p[i] == ProductTerm(q, i)
  {
    seq(|q| + 16, i => ProductTerm(q, i))
  }

  /* Division is division: dividend == quotient * generator + remainder. */

  // Coefficient i of dividend reg + bits, and of a remainder padded to the same length.
  predicate DividendTerm(reg: Register, bits: Bits, i: nat)
    requires i < |bits| + 16
  {
    if i < 16 then reg[i] else bits[i - 16]
  }

  predicate RemainderTerm(r: Register, n: nat, i: nat)
    requires i < n + 16
  {
    i >= n && r[i - n]
  }

  // One bit: what it pops, and what it leaves to divide.
  lemma OneBit(reg: Register, bits: Bits)
    requires bits != []
    ensures var next := Step(reg, bits[0]);
            && Divide(reg, bits) == Divide(next, bits[1..])
            && Quotient(reg, bits)[0] == reg[0] && Quotient(reg, bits)[1..] == Quotient(next, bits[1..])
  {
    hide Step;
  }

  lemma ProductStep(q: Bits, i: int)
    requires q != []
    ensures ProductTerm(q, i)
         == ((q[0] && (i == 0 || (1 <= i && HasTerm(i - 1)))) != ProductTerm(q[1..], i - 1))
  {
  }

  lemma DividendStep(reg: Register, bits: Bits, i: nat)
    requires bits != [] && 0 < i < |bits| + 16
    ensures DividendTerm(Step(reg, bits[0]), bits[1..], i - 1)
         == (DividendTerm(reg, bits, i) != (reg[0] && HasTerm(i - 1)))
  {
    hide Step;
    if i > 16 {
      NoHighTerm(i - 1);
    }
  }

  lemma NoHighTerm(i: nat)
    requires i >= 16
    ensures !HasTerm(i)
  {
  }

  lemma {:induction false} DivisionTerm(reg: Register, bits: Bits, i: nat)
    requires i < |bits| + 16
    ensures DividendTerm(reg, bits, i)
         == (ProductTerm(Quotient(reg, bits), i) != RemainderTerm(Divide(reg, bits), |bits|, i))
    decreases |bits|
  {
    hide Step, HasTerm;
    if bits == [] {
      assert Quotient(reg, bits) == [];
    } else {
      var q, next := Quotient(reg, bits), Step(reg, bits[0]);
      OneBit(reg, bits);
      hide Quotient, Divide;
      ProductStep(q, i);
      hide ProductTerm;
      if i == 0 {
        NoNegativeTerms(q[1..], -1);
      } else {
        DivisionTerm(next, bits[1..], i - 1);
        DividendStep(reg, bits, i);
      }
    }
  }

  lemma {:induction false} NoNegativeTerms(q: Bits, i: int)
    requires i < 0
    ensures !ProductTerm(q, i)
    decreases |q|
  {
    if q != [] {
      NoNegativeTerms(q[1..], i - 1);
    }
  }

  lemma DivisionIdentity(reg: Register, bits: Bits)
    ensures reg + bits == Xor(TimesGenerator(Quotient(reg, bits)),
                              Zeros(|bits|) + Divide(reg, bits))
  {
    hide Quotient, Divide, Step;
    forall i: nat | i < |bits| + 16 {
      DivisionTerm(reg, bits, i);
    }
  }

  lemma {:induction false} UniqueTerms(q: Bits, p: Bits, r: Register, s: Register)
    requires |q| == |p|
    requires forall i: nat | i < |q| + 16 ::
               (ProductTerm(q, i) != RemainderTerm(r, |q|, i)) == (ProductTerm(p, i) != RemainderTerm(s, |p|, i))
    ensures q == p && r == s
    decreases |q|
  {
    var n := |q|;
    if n == 0 {
      forall i: nat | i < 16 ensures r[i] == s[i] {
        assert ProductTerm(q, i) == ProductTerm(p, i) == false;
        assert RemainderTerm(r, n, i) == RemainderTerm(s, n, i);
      }
    } else {
      NoNegativeTerms(q[1..], -1);
      NoNegativeTerms(p[1..], -1);
      assert !RemainderTerm(r, n, 0) && !RemainderTerm(s, n, 0);
      assert ProductTerm(q, 0) == q[0] && ProductTerm(p, 0) == p[0];
      forall i: nat | i < n + 15
        ensures (ProductTerm(q[1..], i) != RemainderTerm(r, n - 1, i)) == (ProductTerm(p[1..], i) != RemainderTerm(s, n - 1, i))
      {
        assert RemainderTerm(r, n, i + 1) == RemainderTerm(r, n - 1, i);
        assert RemainderTerm(s, n, i + 1) == RemainderTerm(s, n - 1, i);
      }
      UniqueTerms(q[1..], p[1..], r, s);
      assert q == [q[0]] + q[1..] && p == [p[0]] + p[1..];
    }
  }

  lemma ProductPlusRemainderIsUnique(q: Bits, p: Bits, r: Register, s: Register)
    requires |q| == |p|
    requires Xor(TimesGenerator(q), Zeros(|q|) + r) == Xor(TimesGenerator(p), Zeros(|p|) + s)
    ensures q == p && r == s
  {
    var n := |q|;
    var a, b := Xor(TimesGenerator(q), Zeros(n) + r), Xor(TimesGenerator(p), Zeros(n) + s);
    forall i: nat | i < n + 16
      ensures (ProductTerm(q, i) != RemainderTerm(r, n, i)) == (ProductTerm(p, i) != RemainderTerm(s, n, i))
    {
      assert a[i] == b[i];
    }
    UniqueTerms(q, p, r, s);
  }

  /* The remainder is zero exactly for the multiples of the generator. */
  lemma DividesIffMultiple(bits: Bits)
    ensures Divide(Zeros(16), bits) == Zeros(16)
       <==> exists q: Bits :: |q| == |bits| && TimesGenerator(q) == Zeros(16) + bits
  {
    var q, r := Quotient(Zeros(16), bits), Divide(Zeros(16), bits);
    DivisionIdentity(Zeros(16), bits);
    if r == Zeros(16) {
      assert TimesGenerator(q) == Xor(TimesGenerator(q), Zeros(|bits|) + r);
    }
    forall p: Bits | |p| == |bits| && TimesGenerator(p) == Zeros(16) + bits
      ensures r == Zeros(16)
    {
      assert TimesGenerator(p) == Xor(TimesGenerator(p), Zeros(|bits|) + Zeros(16));
      ProductPlusRemainderIsUnique(q, p, r, Zeros(16));
    }
  }

  /* Structure of the division. */

  lemma {:induction false} DivideConcat(reg: Register, a: Bits, b: Bits)
    ensures Divide(reg, a + b) == Divide(Divide(reg, a), b)
    decreases |a|
  {
    if a == [] {
      assert a + b == b;
    } else {
      assert (a + b)[1..] == a[1..] + b;
      DivideConcat(Step(reg, a[0]), a[1..], b);
    }
  }

  lemma StepLinear(r: Register, s: Register, x: bool, y: bool)
    ensures Step(Xor(r, s), x != y) == Xor(Step(r, x), Step(s, y))
  {
    hide Step, Xor;
  }

  lemma {:induction false} DivideLinear(r: Register, s: Register, a: Bits, b: Bits)
    requires |a| == |b|
    ensures Divide(Xor(r, s), Xor(a, b)) == Xor(Divide(r, a), Divide(s, b))
    decreases |a|
  {
    if a != [] {
      StepLinear(r, s, a[0], b[0]);
      assert Xor(a, b)[1..] == Xor(a[1..], b[1..]);
      DivideLinear(Step(r, a[0]), Step(s, b[0]), a[1..], b[1..]);
    }
  }

  // While only zeros are popped, the message bits simply move in.
  lemma {:induction false} DivideShifts(reg: Register, bits: Bits)
    requires |bits| <= 16
    requires forall i | 0 <= i < |bits| :: !reg[i]
    ensures Divide(reg, bits) == reg[|bits|..] + bits
    decreases |bits|
  {
    if bits != [] {
      var next := Step(reg, bits[0]);
      forall i | 0 <= i < |bits| - 1 ensures !next[i] {
        assert next[i] == reg[i + 1];
      }
      DivideShifts(next, bits[1..]);
      assert next == reg[1..] + [bits[0]];
      assert next[|bits| - 1..] + bits[1..] == reg[|bits|..] + bits;
    }
  }

  lemma {:induction false} DivideZerosOfZero(n: nat)
    ensures Divide(Zeros(16), Zeros(n)) == Zeros(16)
  {
    if n > 0 {
      assert Step(Zeros(16), false) == Zeros(16);
      assert Zeros(n)[1..] == Zeros(n - 1);
      DivideZerosOfZero(n - 1);
    }
  }

  // Zero bits never turn a non-zero remainder into zero: the generator ends in a one.
  lemma {:induction false} DivideZerosKernel(reg: Register, n: nat)
    requires Divide(reg, Zeros(n)) == Zeros(16)
    ensures reg == Zeros(16)
    decreases n
  {
    if n > 0 {
      var next := Step(reg, false);
      assert Zeros(n)[1..] == Zeros(n - 1);
      DivideZerosKernel(next, n - 1);
      assert !next[15] && !reg[0];
      forall i | 0 <= i < 16 ensures !reg[i] {
        if i > 0 {
          assert next[i - 1] == reg[i];
        }
      }
      assert reg == Zeros(16);
    }
  }

  /* Parity: the generator has an even number of terms. */

  function Weight(bits: Bits): nat {
    if bits == [] then 0 else (if bits[0] then 1 else 0) + Weight(bits[1..])
  }

  lemma {:induction false} WeightConcat(a: Bits, b: Bits)
    ensures Weight(a + b) == Weight(a) + Weight(b)
  {
    if a == [] {
      assert a + b == b;
    } else {
      assert (a + b)[1..] == a[1..] + b;
      WeightConcat(a[1..], b);
    }
  }

  lemma {:induction false} WeightXor(a: Bits, b: Bits)
    requires |a| == |b|
    ensures Weight(Xor(a, b)) % 2 == (Weight(a) + Weight(b)) % 2
  {
    if a != [] {
      assert Xor(a, b)[1..] == Xor(a[1..], b[1..]);
      WeightXor(a[1..], b[1..]);
    }
  }

  lemma PolyWeight()
    ensures Weight(Poly()) == 3
  {
    var four := Zeros(4) + [true];
    var rest := Zeros(6) + ([true] + four);
    assert Poly() == Zeros(3) + ([true] + rest);
    ZerosWeight(3);
    ZerosWeight(4);
    ZerosWeight(6);
    WeightConcat(Zeros(3), [true] + rest);
    WeightConcat([true], rest);
    WeightConcat(Zeros(6), [true] + four);
    WeightConcat([true], four);
    WeightConcat(Zeros(4), [true]);
    assert Weight([true]) == 1;
  }

  lemma {:induction false} ZerosWeight(n: nat)
    ensures Weight(Zeros(n)) == 0
  {
    if n > 0 {
      assert Zeros(n)[1..] == Zeros(n - 1);
      ZerosWeight(n - 1);
    }
  }

  lemma ShiftedWeight(reg: Register, bit: bool)
    ensures Weight(reg[1..] + [bit]) + (if reg[0] then 1 else 0)
         == Weight(reg) + (if bit then 1 else 0)
  {
    WeightConcat(reg[1..], [bit]);
    assert Weight([bit]) == if bit then 1 else 0;
  }

  lemma StepKeepsParity(reg: Register, bit: bool)
    ensures Weight(Step(reg, bit)) % 2 == (Weight(reg) + (if bit then 1 else 0)) % 2
  {
    hide Weight, Xor, Poly;
    ShiftedWeight(reg, bit);
    WeightXor(reg[1..] + [bit], Poly());
    PolyWeight();
  }

  lemma {:induction false} DivideKeepsParity(reg: Register, bits: Bits)
    ensures Weight(Divide(reg, bits)) % 2 == (Weight(reg) + Weight(bits)) % 2
    decreases |bits|
  {
    if bits != [] {
      StepKeepsParity(reg, bits[0]);
      hide Step;
      DivideKeepsParity(Step(reg, bits[0]), bits[1..]);
    }
  }
}
