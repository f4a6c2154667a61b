/**
  Machine integers as bounded mathematical ones, and C's truncating division.
*/
module Words {
  type uint8 = x: int | 0 <= x < 0x100
  type int8 = x: int | -0x80 <= x < 0x80

  function ToInt8(x: int): int8 {
    if x % 0x100 < 0x80 then x % 0x100 else x % 0x100 - 0x100
  }

  type int16 = x: int | -0x8000 <= x < 0x8000

  function ToInt16(x: int): int16 {
    if x % 0x1_0000 < 0x8000 then x % 0x1_0000 else x % 0x1_0000 - 0x1_0000
  }

  lemma Int8Fits(x: int)
    ensures -0x80 <= x < 0x80 ==> ToInt8(x) == x
  {
  }

  lemma Int16Fits(x: int)
    ensures -0x8000 <= x < 0x8000 ==> ToInt16(x) == x
  {
  }

  type int32 = x: int | -0x8000_0000 <= x < 0x8000_0000

  function ToInt32(x: int): int32 {
    if x % 0x1_0000_0000 < 0x8000_0000 then x % 0x1_0000_0000 else x % 0x1_0000_0000 - 0x1_0000_0000
  }

  function Power(base: nat, k: nat): nat {
    if k == 0 then 1 else base * Power(base, k - 1)
  }

  function Abs(x: int): nat {
    if x >= 0 then x else -x
  }

  // Division that rounds toward zero, as C's does.
  function TruncDiv(a: int, b: int): int
    requires b > 0
  {
    if a >= 0 then a / b else -(-a / b)
  }

  lemma QuotientBounds(a: nat, b: int)
    requires b > 0
    ensures a / b * b <= a < a / b * b + b
  {
  }

  lemma Multiples(p: int, q: int, b: int)
    requires p < q && b > 0
    ensures p * b + b <= q * b
  {
    assert (q - p - 1) * b >= 0;
    assert (q - p - 1) * b == q * b - p * b - b;
  }

  lemma QuotientAtMost(a: nat, b: int, q: nat)
    requires b > 0 && a <= q * b
    ensures a / b <= q
  {
    QuotientBounds(a, b);
    if a / b > q {
      Multiples(q, a / b, b);
    }
  }

  lemma QuotientExact(a: nat, b: int, q: nat)
    requires b > 0 && a == q * b
    ensures a / b == q
  {
    QuotientAtMost(a, b, q);
    QuotientBounds(a, b);
    if a / b < q {
      Multiples(a / b, q, b);
    }
  }

  lemma Remainder(a: int, q: int, r: nat, m: int)
    requires a == q * m + r && r < m
    ensures a % m == r && a / m == q
  {
    var p := a / m;
    assert a == p * m + a % m;
    if p < q {
      Multiples(p, q, m);
    } else if p > q {
      Multiples(q, p, m);
    }
  }

  lemma SameWord(x: int, y: int, k: int)
    requires x == y + k * 0x1_0000_0000
    ensures ToInt32(x) == ToInt32(y)
  {
    Remainder(x, k + y / 0x1_0000_0000, y % 0x1_0000_0000, 0x1_0000_0000);
  }

  // Wrapping at every step is the same as wrapping at the end.
  lemma WrapLinear(b: int, x: int, d: int)
    ensures ToInt32(b * ToInt32(x) + d) == ToInt32(b * x + d)
  {
    var k := if x % 0x1_0000_0000 < 0x8000_0000 then x / 0x1_0000_0000 else x / 0x1_0000_0000 + 1;
    assert x == ToInt32(x) + k * 0x1_0000_0000;
    assert b * x == b * ToInt32(x) + b * k * 0x1_0000_0000;
    SameWord(b * x + d, b * ToInt32(x) + d, b * k);
  }
}
