/**
  Integers as text: the printer, which reverses its digits in place, and the reader.
*/
module NumberText {
  import opened Words

  const RANGE := 0x1_0000_0000

  /* What the text of a number is. */

  function DigitChar(d: nat): (c: char)
    requires d < 36
    ensures c != '\0'
  {
    if d > 9 then ('A' as int - 10 + d) as char else ('0' as int + d) as char
  }

  function Digits(u: nat, base: nat): (s: string)
    requires 2 <= base <= 36
    ensures s != [] && '\0' !in s
    decreases u
  {
    if u < base then [DigitChar(u)]
    else
      ShrinksTo(u, base);
      Digits(u / base, base) + [DigitChar(u % base)]
  }

  lemma ShrinksTo(u: nat, base: nat)
    requires 2 <= base <= u
    ensures 0 < u / base < u
  {
    QuotientBounds(u, base);
    var q := u / base;
    assert q > 0 by { if q <= 0 { Multiples(q, 1, base); } }
    assert q * base == q * (base - 1) + q;
    assert q * (base - 1) > 0;
  }

  // The last digit, and those before it.
  lemma DigitsStep(u: nat, base: nat)
    requires 2 <= base <= 36
    ensures u < base <==> u / base == 0
    ensures 0 <= u % base < base && 0 <= u / base
    ensures u < base ==> u % base == u && Digits(u, base) == [DigitChar(u)]
    ensures u >= base ==> u / base < u && Digits(u, base) == Digits(u / base, base) + [DigitChar(u % base)]
  {
    if u < base {
      Remainder(u, 0, u, base);
    } else {
      ShrinksTo(u, base);
    }
  }

  // The value printed: the magnitude, or the bits taken as unsigned.
  function Magnitude(val: int32, signed: bool): nat {
    if signed then Abs(val) else val % RANGE
  }

  function Text(val: int32, base: nat, signed: bool): (s: string)
    requires 2 <= base <= 36
    ensures '\0' !in s
  {
    (if signed && val < 0 then "-" else "") + Digits(Magnitude(val, signed), base)
  }

  function Reversed(s: string): (r: string)
    ensures |r| == |s| && forall k | 0 <= k < |s| :: r[k] == s[|s| - 1 - k]
  {
    seq(|s|, k requires 0 <= k < |s| => s[|s| - 1 - k])
  }

  // The zero-terminated text held in s.
  ghost predicate Holds(s: array<char>, text: string)
    reads s
  {
    |text| < s.Length && s[..|text|] == text && s[|text|] == '\0' && '\0' !in text
  }

  /* The printer. */

  method ItoA(val: int32, s: array<char>, base: int, signed: bool)
    requires s.Length > 0 && (2 <= base <= 36 ==> |Text(val, base, signed)| < s.Length)
    modifies s
    ensures 2 <= base <= 36 ==>
              && Holds(s, Text(val, base, signed))
              && forall k | |Text(val, base, signed)| < k < s.Length :: s[k] == old(s[k])
    ensures !(2 <= base <= 36) ==>
              s[0] == '\0' && forall k | 0 < k < s.Length :: s[k] == old(s[k])
  {
    hide Text, Holds;
    if base > 36 || base < 2 {
      s[0] := '\0';
      return;
    }
    Print(val, s, base, signed);
  }

  method Print(val: int32, s: array<char>, base: nat, signed: bool)
    requires 2 <= base <= 36 && |Text(val, base, signed)| < s.Length
    modifies s
    ensures Holds(s, Text(val, base, signed))
    ensures forall k | |Text(val, base, signed)| < k < s.Length :: s[k] == old(s[k])
  {
    hide Text, Digits, Reversed, Magnitude;
    ghost var text := Text(val, base, signed);
    ReversedText(val, base, signed);
    var i := PutDigits(Magnitude(val, signed), s, base);
    if val < 0 && signed {
      s[i] := '-';
      i := i + 1;
    }
    s[i] := '\0';
    StrRev(s, Reversed(text));
  }

  lemma ReversedText(val: int32, base: nat, signed: bool)
    requires 2 <= base <= 36
    ensures var text := Text(val, base, signed);
            && Reversed(text)
            == Reversed(Digits(Magnitude(val, signed), base)) + (if signed && val < 0 then "-" else "")
            && Reversed(Reversed(text)) == text && '\0' !in Reversed(text)
  {
    hide Digits;
    ReversedJoin(if signed && val < 0 then "-" else "", Digits(Magnitude(val, signed), base));
  }

  lemma ReversedJoin(a: string, b: string)
    ensures Reversed(a + b) == Reversed(b) + Reversed(a)
    ensures |a| <= 1 ==> Reversed(a) == a
    ensures Reversed(Reversed(a + b)) == a + b
  {
  }

  // Least significant digit first.
  method PutDigits(u: nat, s: array<char>, base: int) returns (i: nat)
    requires 2 <= base <= 36 && |Digits(u, base)| < s.Length
    modifies s
    ensures i == |Digits(u, base)| && s[..i] == Reversed(Digits(u, base))
    ensures forall k | i <= k < s.Length :: s[k] == old(s[k])
  {
    i := 0;
    var uval := u;
    while true
      invariant 0 <= uval && i + |Digits(uval, base)| == |Digits(u, base)|
      invariant Digits(u, base) == Digits(uval, base) + Reversed(s[..i])
      invariant forall k | i <= k < s.Length :: s[k] == old(s[k])
      decreases uval
    {
      hide Digits, DigitChar;
      DigitsStep(uval, base);
      var tmp := uval % base;
      ghost var done := Reversed(s[..i]);
      s[i] := DigitChar(tmp);
      i := i + 1;
      assert Reversed(s[..i]) == [DigitChar(tmp)] + done;
      ghost var last := uval;
      uval := uval / base;
      if uval == 0 {
        return;
      }
    }
  }

  method StrLen(s: array<char>, ghost text: string) returns (n: nat)
    requires Holds(s, text)
    ensures n == |text|
  {
    n := 0;
    while s[n] != '\0'
      invariant n <= |text|
      decreases |text| - n
    {
      assert s[n] == s[..|text|][n] == text[n];
      n := n + 1;
    }
  }

  // Reverses a text in place.
  method StrRev(s: array<char>, ghost text: string)
    requires Holds(s, text)
    modifies s
    ensures Holds(s, Reversed(text)) && forall k | |text| <= k < s.Length :: s[k] == old(s[k])
  {
    var tail := StrLen(s, text);
    ghost var n := tail;
    var str := 0;
    while tail > str
      invariant 0 <= str <= n && tail == n - str && str <= tail + 1
      invariant forall k | n <= k < s.Length :: s[k] == old(s[k])
      invariant forall k | 0 <= k < str :: s[k] == text[n - 1 - k]
      invariant forall k | tail <= k < n :: s[k] == text[n - 1 - k]
      invariant forall k | str <= k < tail :: s[k] == text[k]
    {
      tail := tail - 1;
      var tmp := s[tail];
      s[tail] := s[str];
      s[str] := tmp;
      str := str + 1;
    }
    assert s[..n] == Reversed(text);
  }

  /* The reader. */

  function GetValue(digit: char): int {
    if '0' <= digit <= '9' then digit as int - '0' as int
    else if 'A' <= digit <= 'F' then digit as int - 'A' as int + 10
    else -1
  }

  // Ends with something that is neither zero nor digit, as every zero-terminated text does.
  function ZerosIn(s: string): (n: nat)
    ensures n <= |s|
    ensures forall k | 0 <= k < n :: s[k] == '0'
    ensures n < |s| ==> s[n] != '0'
  {
    if s == [] || s[0] != '0' then 0 else 1 + ZerosIn(s[1..])
  }

  function DigitsIn(s: string): (n: nat)
    ensures n <= |s|
    ensures forall k | 0 <= k < n :: GetValue(s[k]) != -1
    ensures n < |s| ==> GetValue(s[n]) == -1
  {
    if s == [] || GetValue(s[0]) == -1 then 0 else 1 + DigitsIn(s[1..])
  }

  function TagBase(c: char): nat {
    if c == 'x' || c == 'X' then 16 else if c == 'o' then 8 else if c == 'b' then 2 else 10
  }

  function Number(digits: string, base: nat): int {
    if digits == [] then 0
    else base * Number(digits[..|digits| - 1], base) + GetValue(digits[|digits| - 1])
  }

  datatype Scanned = Scanned(start: nat, base: nat, digits: string)

  // Where the digits of an unsigned text start, in what base they are, and which they are.
  function Scan(s: string): Scanned
    requires '\0' in s
  {
    var z := ZerosIn(s);
    var start := if TagBase(s[z]) == 10 then z else z + 1;
    Scanned(start, TagBase(s[z]), s[start..][..DigitsIn(s[start..])])
  }

  predicate IsSign(c: char) {
    c == '+' || c == '-'
  }

  function Unsigned(s: string): (r: string)
    requires '\0' in s
    ensures '\0' in r
  {
    if IsSign(s[0]) then s[1..] else s
  }

  function Signed(minus: bool, n: int): int {
    if minus then -n else n
  }

  function ReadValue(str: string): int32
    requires '\0' in str
  {
    var p := Scan(Unsigned(str));
    ToInt32(Signed(str[0] == '-', Number(p.digits, p.base)))
  }

  // A plus sign is not counted.
  function ReadCount(str: string): int
    requires '\0' in str
  {
    var p := Scan(Unsigned(str));
    p.start + |p.digits| + if str[0] == '-' then 1 else 0
  }

  method AtoI(str: string) returns (count: int, val: int32)
    requires '\0' in str
    ensures val == ReadValue(str) && count == ReadCount(str)
  {
    hide ToInt32, Number, Scan;
    var minus := str[0] == '-';
    var s := str;
    if str[0] == '+' || str[0] == '-' {
      s := str[1..];
    }
    var i, ival := ReadUnsigned(s);
    SignedWrap(minus, Number(Scan(s).digits, Scan(s).base));
    var sign: int := if minus then -1 else 1;
    val := ToInt32(sign * (ival as int));
    count := if sign == 1 then i else i + 1;
  }

  method ReadUnsigned(s: string) returns (i: nat, ival: int32)
    requires '\0' in s
    ensures var p := Scan(s); i == p.start + |p.digits| && ival == ToInt32(Number(p.digits, p.base))
  {
    hide ToInt32, Number, ZerosIn, DigitsIn, GetValue;
    i := SkipZeros(s);
    var base := ReadTag(s[i]);
    if base != 10 {
      i := i + 1;
    }
    var n;
    ival, n := ReadDigits(s[i..], base);
    i := i + n;
  }

  method ReadTag(c: char) returns (base: nat)
    ensures base == TagBase(c)
  {
    match c {
      case 'x' => base := 16;
      case 'X' => base := 16;
      case 'o' => base := 8;
      case 'b' => base := 2;
      case _ => base := 10;
    }
  }

  lemma SignedWrap(minus: bool, n: int)
    ensures ToInt32((if minus then -1 else 1) * ToInt32(n)) == ToInt32(Signed(minus, n))
  {
    hide ToInt32;
    WrapLinear(if minus then -1 else 1, n, 0);
  }

  method SkipZeros(str: string) returns (i: nat)
    requires '\0' in str
    ensures i == ZerosIn(str) && i < |str| && '\0' in str[i..]
  {
    i := 0;
    while str[i] == '0'
      invariant i < |str| && '\0' in str[i..]
      invariant forall k | 0 <= k < i :: str[k] == '0'
      decreases |str| - i
    {
      i := i + 1;
    }
    ZerosEnd(str, i);
  }

  method ReadDigits(str: string, base: nat) returns (ival: int32, i: nat)
    requires '\0' in str
    ensures i == DigitsIn(str)
    ensures ival == ToInt32(Number(str[..i], base))
  {
    hide ToInt32, Number, GetValue, DigitsIn;
    ival, i := 0, 0;
    NoNumberYet(base);
    ZeroIsNoDigit();
    while GetValue(str[i]) != -1
      invariant i < |str| && '\0' in str[i..]
      invariant forall k | 0 <= k < i :: GetValue(str[k]) != -1
      invariant ival == ToInt32(Number(str[..i], base))
      decreases |str| - i
    {
      var digit := GetValue(str[i]);
      assert str[..i + 1] == str[..i] + [str[i]];
      NumberNext(str[..i], str[i], base);
      WrapLinear(base, Number(str[..i], base), digit);
      ival := ToInt32(base * ival + digit);
      i := i + 1;
    }
    DigitsEnd(str, i);
  }

  lemma NoNumberYet(base: nat)
    ensures ToInt32(Number("", base)) == 0
  {
  }

  lemma ZeroIsNoDigit()
    ensures GetValue('\0') == -1
  {
  }

  lemma NumberNext(digits: string, c: char, base: nat)
    ensures Number(digits + [c], base) == base * Number(digits, base) + GetValue(c)
  {
    assert (digits + [c])[..|digits|] == digits;
  }

  /* Reading what was printed. */

  lemma DigitValue(d: nat)
    requires d < 36
    ensures GetValue(DigitChar(d)) == if d < 16 then d else -1
    ensures DigitChar(d) == '0' <==> d == 0
  {
  }

  // The characters, in ASCII: those of all bases are capital, and no others are read.
  lemma AsciiDigits(d: nat, c: char)
    requires d < 36
    ensures DigitChar(d) as int == if d < 10 then 48 + d else 55 + d
    ensures GetValue(c) == (if 48 <= c as int < 58 then c as int - 48 else if 65 <= c as int < 71 then c as int - 55 else -1)
  {
  }

  lemma QuotientAndRemainder(u: nat, base: nat)
    requires base > 0
    ensures base * (u / base) + u % base == u
  {
  }

  lemma {:induction false} NumberOfDigits(u: nat, base: nat)
    requires 2 <= base <= 16
    ensures Number(Digits(u, base), base) == u
    ensures forall k | 0 <= k < |Digits(u, base)| :: GetValue(Digits(u, base)[k]) != -1
    decreases u
  {
    DigitsStep(u, base);
    hide Digits, GetValue, DigitChar;
    DigitValue(u % base);
    if u < base {
      NumberNext([], DigitChar(u), base);
      assert [] + [DigitChar(u)] == [DigitChar(u)];
      assert base * Number([], base) == 0;
    } else {
      hide Number;
      NumberOfDigits(u / base, base);
      NumberNext(Digits(u / base, base), DigitChar(u % base), base);
      QuotientAndRemainder(u, base);
    }
  }

  lemma {:induction false} NoLeadingZero(u: nat, base: nat)
    requires 2 <= base <= 36
    ensures Digits(u, base)[0] == '0' <==> u == 0
    decreases u
  {
    hide Digits, DigitChar;
    DigitsStep(u, base);
    DigitValue(u % base);
    if u >= base {
      NoLeadingZero(u / base, base);
    }
  }

  function Tag(base: nat): string {
    if base == 16 then "0x" else if base == 8 then "0o" else if base == 2 then "0b" else ""
  }

  lemma DigitsEnd(s: string, k: nat)
    requires k < |s| && GetValue(s[k]) == -1
    requires forall j | 0 <= j < k :: GetValue(s[j]) != -1
    ensures DigitsIn(s) == k
  {
  }

  lemma ZerosEnd(s: string, k: nat)
    requires k < |s| && s[k] != '0'
    requires forall j | 0 <= j < k :: s[j] == '0'
    ensures ZerosIn(s) == k
  {
  }

  // A numeral with its tag, before a terminator, is scanned whole.
  lemma ScansWhole(base: nat, u: nat)
    requires base in {2, 8, 10, 16}
    ensures var s := Tag(base) + Digits(u, base) + "\0";
            var p := Scan(s);
            p.base == base && Number(p.digits, base) == u && p.start + |p.digits| == |s| - 1
  {
    hide Scan, Digits, GetValue, TagBase;
    var d := Digits(u, base);
    NumberOfDigits(u, base);
    NoLeadingZero(u, base);
    if base == 10 {
      assert Tag(base) + d == d;
      if u == 0 {
        ZeroIsOneDigit();
        ScansZero();
      } else {
        ScansDecimal(d);
      }
    } else {
      var c := Tag(base)[1];
      assert Tag(base) == "0" + [c];
      TagOf(base);
      ScansTagged(c, d);
    }
  }

  lemma ZeroIsOneDigit()
    ensures Digits(0, 10) == "0" && Number("", 10) == 0
  {
  }

  lemma TagOf(base: nat)
    requires base in {2, 8, 16}
    ensures TagBase(Tag(base)[1]) == base
  {
  }

  lemma ScansZero()
    ensures Scan("0" + "\0") == Scanned(1, 10, "")
  {
    var body := "0" + "\0";
    ZeroIsNoDigit();
    hide GetValue;
    ZerosEnd(body, 1);
    assert body[1..] == "\0";
    DigitsEnd("\0", 0);
  }

  lemma ScansDecimal(d: string)
    requires d != [] && d[0] != '0'
    requires forall k | 0 <= k < |d| :: GetValue(d[k]) != -1
    ensures Scan(d + "\0") == Scanned(0, 10, d)
  {
    var body := d + "\0";
    ZeroIsNoDigit();
    DigitIsNoTag(d[0]);
    hide GetValue, TagBase;
    ZerosEnd(body, 0);
    DigitsEnd(body, |d|);
    assert body[0..] == body;
  }

  lemma DigitIsNoTag(c: char)
    requires GetValue(c) != -1
    ensures TagBase(c) == 10
  {
  }

  lemma ScansTagged(c: char, d: string)
    requires TagBase(c) != 10
    requires forall k | 0 <= k < |d| :: GetValue(d[k]) != -1
    ensures Scan("0" + [c] + d + "\0") == Scanned(2, TagBase(c), d)
  {
    assert c != '0';
    ZeroIsNoDigit();
    hide GetValue, TagBase;
    var body := "0" + [c] + d + "\0";
    ZerosEnd(body, 1);
    assert body[2..] == d + "\0";
    DigitsEnd(d + "\0", |d|);
  }

  // The text of val with the tag of its base after the sign; in base 10, the text itself.
  function Tagged(val: int32, base: nat, signed: bool): string
    requires 2 <= base <= 36
  {
    (if signed && val < 0 then "-" else "") + (Tag(base) + Digits(Magnitude(val, signed), base) + "\0")
  }

  lemma WordOfText(val: int32, signed: bool)
    ensures ToInt32(Signed(signed && val < 0, Magnitude(val, signed))) == val
  {
    if signed {
      SameWord(val, val, 0);
    } else {
      SameWord(Magnitude(val, signed), val, if val < 0 then 1 else 0);
    }
  }

  // Every word printed in base 10, or in base 2, 8 or 16 and tagged, reads back, all of it.
  lemma RoundTrip(val: int32, base: nat, signed: bool)
    requires base in {2, 8, 10, 16}
    ensures '\0' in Tagged(val, base, signed)
    ensures ReadValue(Tagged(val, base, signed)) == val
    ensures ReadCount(Tagged(val, base, signed)) == |Tagged(val, base, signed)| - 1
    ensures base == 10 ==> Tagged(val, base, signed) == Text(val, base, signed) + "\0"
  {
    hide Scan, Digits, ToInt32, Number, Magnitude, IsSign;
    var u := Magnitude(val, signed);
    var body := Tag(base) + Digits(u, base) + "\0";
    ScansWhole(base, u);
    WordOfText(val, signed);
    BodyHasNoSign(base, u);
    assert body[|body| - 1] == '\0';
    AfterSign(signed && val < 0, body);
    if base == 10 {
      assert Tag(base) + Digits(u, base) == Digits(u, base);
      assert Tagged(val, base, signed) == Text(val, base, signed) + "\0";
    }
  }

  lemma AfterSign(minus: bool, body: string)
    requires '\0' in body && !IsSign(body[0])
    ensures var s := (if minus then "-" else "") + body;
            '\0' in s && Unsigned(s) == body && (s[0] == '-' <==> minus)
  {
    var s := (if minus then "-" else "") + body;
    assert s[|s| - |body|..] == body;
    assert minus ==> s[1..] == body;
  }

  lemma BodyHasNoSign(base: nat, u: nat)
    requires 2 <= base <= 16
    ensures var body := Tag(base) + Digits(u, base) + "\0"; !IsSign(body[0])
  {
    NumberOfDigits(u, base);
    var d := Digits(u, base);
    hide Digits;
    DigitIsNoSign(d[0]);
    assert Tag(base) == "" ==> (Tag(base) + d + "\0")[0] == d[0];
    assert Tag(base) != "" ==> (Tag(base) + d + "\0")[0] == '0';
  }

  lemma DigitIsNoSign(c: char)
    requires GetValue(c) != -1
    ensures !IsSign(c)
  {
  }

  // With a plus sign, the value is right and the count one short.
  lemma PlusIsNotCounted(base: nat, u: nat)
    requires base in {2, 8, 10, 16}
    ensures var s := "+" + (Tag(base) + Digits(u, base) + "\0");
            '\0' in s && ReadValue(s) == ToInt32(u) && ReadCount(s) == |s| - 2
  {
    hide Scan, Digits, ToInt32;
    var body := Tag(base) + Digits(u, base) + "\0";
    var s := "+" + body;
    ScansWhole(base, u);
    assert body[|body| - 1] == '\0';
    assert s[0] == '+' && s[1..] == body && s[|s| - 1] == '\0';
  }

  // A number printed in base 10 and read again from the same buffer.
  method PrintAndRead(val: int32, s: array<char>, signed: bool) returns (count: int, read: int32)
    requires |Text(val, 10, signed)| < s.Length
    modifies s
    ensures read == val && count == |Text(val, 10, signed)|
  {
    hide ReadValue, ReadCount, Text, Tagged;
    ghost var n := |Text(val, 10, signed)|;
    ItoA(val, s, 10, signed);
    RoundTrip(val, 10, signed);
    var len := StrLen(s, Text(val, 10, signed));
    assert s[..len + 1] == Text(val, 10, signed) + "\0";
    count, read := AtoI(s[..len + 1]);
  }

  /* How much room the text takes. */

  lemma {:induction false} DigitsAtMost(u: nat, base: nat, c: nat, n: nat)
    requires 2 <= c <= base <= 36 && n > 0 && u < Power(c, n)
    ensures |Digits(u, base)| <= n
    decreases n
  {
    hide Digits;
    DigitsStep(u, base);
    if u >= base {
      var p := Power(c, n - 1);
      QuotientBelow(u, base, c, p);
      assert n > 1;
      DigitsAtMost(u / base, base, c, n - 1);
    }
  }

  lemma QuotientBelow(u: nat, base: nat, c: nat, p: nat)
    requires 2 <= c <= base <= u < c * p
    ensures u / base < p && p != 1
  {
    QuotientBounds(u, base);
    assert base * p >= c * p;
    var q := u / base;
    assert q >= p ==> q * base >= p * base;
  }

  lemma {:induction false} BitsAtLeast(u: nat, n: nat)
    requires u >= Power(2, n)
    ensures |Digits(u, 2)| > n
    decreases n
  {
    hide Digits;
    DigitsStep(u, 2);
    if n > 0 {
      assert Power(2, n - 1) > 0 ==> u >= 2;
      PowerPositive(n - 1);
      BitsAtLeast(u / 2, n - 1);
    }
  }

  lemma {:induction false} PowerPositive(n: nat)
    ensures Power(2, n) > 0
  {
    if n > 0 {
      PowerPositive(n - 1);
    }
  }

  lemma WordPowers()
    ensures Power(2, 31) == 0x8000_0000 && Power(2, 32) == RANGE && Power(3, 21) > RANGE
  {
    assert Power(2, 8) == 0x100;
    assert Power(2, 16) == 0x1_0000;
    assert Power(2, 24) == 0x100_0000;
    assert Power(3, 7) == 2187;
    assert Power(3, 14) == 2187 * 2187;
  }

  // The text and its terminator take at most 33 characters, but for one value in one form.
  lemma AtMost33CellsIff(val: int32, base: nat, signed: bool)
    requires 2 <= base <= 36
    ensures |Text(val, base, signed)| + 1 <= 33 <==> !(base == 2 && signed && val == -0x8000_0000)
    ensures |Text(val, base, signed)| + 1 <= 34
  {
    WordPowers();
    hide Digits, Power;
    var u := Magnitude(val, signed);
    if base == 2 {
      DigitsAtMost(u, 2, 2, 32);
      if u < 0x8000_0000 {
        DigitsAtMost(u, 2, 2, 31);
      } else {
        BitsAtLeast(u, 31);
      }
    } else {
      DigitsAtMost(u, base, 3, 21);
    }
  }

  const PRINT_SIZE := 32

  // The driver prints with a buffer of 32: enough for everything but a bit pattern in
  // base 2 that uses the top bit.
  lemma FitsPrintBufferIff(val: int32, base: nat, signed: bool)
    requires 2 <= base <= 36 && (signed ==> base > 2)
    ensures |Text(val, base, signed)| < PRINT_SIZE <==> !(base == 2 && val < 0)
  {
    WordPowers();
    hide Digits, Power;
    var u := Magnitude(val, signed);
    if base == 2 {
      if u < 0x8000_0000 {
        DigitsAtMost(u, 2, 2, 31);
      } else {
        BitsAtLeast(u, 31);
      }
    } else {
      DigitsAtMost(u, base, 3, 21);
    }
  }
}
