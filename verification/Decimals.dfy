/**
 * Finite decimals as Python's `decimal` module keeps them: a sign, a coefficient and an exponent.
 * `Decimal("1.50")` and `Decimal("1.5")` are equal in value and print differently.
 */
module Decimals {
  import opened Wrappers

  datatype Decimal = Decimal(negative: bool, coefficient: nat, exponent: int)

  // ---------------------------------------------------------------------------------------------
  // Value

  function Pow10(n: int): (r: real)
    ensures r > 0.0
    decreases if n < 0 then -n else n
  {
    if n == 0 then 1.0
    else if n > 0 then 10.0 * Pow10(n - 1)
    else Pow10(n + 1) / 10.0
  }

  function Signed(d: Decimal): int {
    if d.negative then 0 - d.coefficient else d.coefficient
  }

  function Value(d: Decimal): real {
    Signed(d) as real * Pow10(d.exponent)
  }

  function Abs(x: real): real {
    if x < 0.0 then -x else x
  }

  /** Ten to a natural power, over the integers. */
  function Ten(n: nat): (r: nat)
    ensures r >= 1
  {
    if n == 0 then 1 else 10 * Ten(n - 1)
  }

  lemma {:induction false} Pow10Step(n: int)
    ensures Pow10(n + 1) == 10.0 * Pow10(n)
  {
  }

  lemma {:induction false} TenTimes(t: nat)
    ensures (10 * t) as real == 10.0 * t as real
  {
  }

  lemma {:induction false} Pow10Add(n: int, k: nat)
    ensures Pow10(n + k) == Ten(k) as real * Pow10(n)
  {
    if k > 0 {
      Pow10Add(n, k - 1);
      Pow10Step(n + k - 1);
      var t: nat := Ten(k - 1);
      assert Ten(k) == 10 * t;
      hide *;
      TenTimes(t);
      ScaleTwice(10.0, t as real, Pow10(n));
    }
  }

  lemma {:induction false} ScaleTwice(a: real, b: real, c: real)
    ensures a * (b * c) == (a * b) * c
  {
  }

  // ---------------------------------------------------------------------------------------------
  // Text of natural numbers

  function DigitChar(n: nat): (c: char)
    requires n < 10
    ensures IsDigit(c) && DigitValue(c) == n
  {
    '0' + n as char
  }

  predicate IsDigit(c: char) {
    '0' <= c <= '9'
  }

  function DigitValue(c: char): (n: nat)
    requires IsDigit(c)
    ensures n < 10
  {
    (c - '0') as nat
  }

  predicate AllDigits(s: string) {
    forall i :: 0 <= i < |s| ==> IsDigit(s[i])
  }

  function Digits(n: nat): (s: string)
    ensures |s| > 0 && AllDigits(s)
  {
    if n < 10 then [DigitChar(n)] else Digits(n / 10) + [DigitChar(n % 10)]
  }

  function NatOf(s: string): nat
    requires AllDigits(s)
  {
    if s == "" then 0 else 10 * NatOf(s[..|s| - 1]) + DigitValue(s[|s| - 1])
  }

  lemma {:induction false} NatOfDigits(n: nat)
    ensures NatOf(Digits(n)) == n
  {
    if n >= 10 {
      NatOfDigits(n / 10);
      var s := Digits(n);
      assert s[..|s| - 1] == Digits(n / 10);
    }
  }

  function Zeros(n: nat): (s: string)
    ensures |s| == n && AllDigits(s)
  {
    if n == 0 then "" else "0" + Zeros(n - 1)
  }

  lemma {:induction false} ZerosAreZero(n: nat)
    ensures forall i :: 0 <= i < n ==> Zeros(n)[i] == '0'
  {
    if n > 0 {
      ZerosAreZero(n - 1);
    }
  }

  lemma {:induction false} LeadingZeros(n: nat, s: string)
    requires AllDigits(s)
    ensures NatOf(Zeros(n) + s) == NatOf(s)
    decreases |s|, n
  {
    var t := Zeros(n) + s;
    if |s| > 0 {
      LeadingZeros(n, s[..|s| - 1]);
      assert t[..|t| - 1] == Zeros(n) + s[..|s| - 1];
    } else if n > 0 {
      LeadingZeros(n - 1, s);
      ZerosAreZero(n);
      ZerosAreZero(n - 1);
      assert t[..|t| - 1] == Zeros(n - 1) + s;
    }
  }

  // ---------------------------------------------------------------------------------------------
  // Text of decimals

  /** `str(Decimal)`: plain notation for small exponents, scientific notation otherwise. */
  function Str(d: Decimal): string {
    (if d.negative then "-" else "") + Unsigned(Digits(d.coefficient), d.exponent)
  }

  function Unsigned(digits: string, exponent: int): string
    requires |digits| > 0
  {
    var left := exponent + |digits|;
    if exponent <= 0 && left > -6 then Mantissa(digits, left)
    else Mantissa(digits, 1) + "E" + SignedDigits(left - 1)
  }

  /** The digits with a point after the first `point` of them. */
  function Mantissa(digits: string, point: int): string
    requires point <= |digits|
  {
    if point <= 0 then "0." + Zeros(-point) + digits
    else if point == |digits| then digits
    else digits[..point] + "." + digits[point..]
  }

  function SignedDigits(n: int): string {
    if n < 0 then "-" + Digits(-n) else "+" + Digits(n)
  }

  /** Where `c` first occurs, or the length of `s`. */
  function Find(s: string, c: char): (i: nat)
    ensures i <= |s|
    ensures i < |s| ==> s[i] == c
  {
    if s == "" then 0
    else if s[0] == c then 0
    else 1 + Find(s[1..], c)
  }

  lemma {:induction false} FindFirst(a: string, c: char, b: string)
    requires c !in a
    ensures Find(a + [c] + b, c) == |a|
    ensures Find(a, c) == |a|
  {
    if a != "" {
      FindFirst(a[1..], c, b);
      assert (a + [c] + b)[1..] == a[1..] + [c] + b;
    }
  }

  function ParseSigned(s: string): Option<int> {
    if |s| < 2 || !AllDigits(s[1..]) then None
    else if s[0] == '-' then Some(0 - NatOf(s[1..]))
    else if s[0] == '+' then Some(NatOf(s[1..]))
    else None
  }

  /** The text before the first point and the text after it. */
  function SplitPoint(m: string): (string, string) {
    var p := Find(m, '.');
    if p == |m| then (m, "") else (m[..p], m[p + 1..])
  }

  /** Digits either side of a point, scaled by a power of ten. */
  function FromParts(parts: (string, string), shift: int): Option<(nat, int)> {
    var all := parts.0 + parts.1;
    if AllDigits(all) then Some((NatOf(all), shift - |parts.1|)) else None
  }

  function ParseUnsigned(s: string): Option<(nat, int)> {
    var e := Find(s, 'E');
    if e == |s| then FromParts(SplitPoint(s), 0)
    else
      var shift := ParseSigned(s[e + 1..]);
      if shift.None? then None else FromParts(SplitPoint(s[..e]), shift.value)
  }

  /** The decimal that prints as `s`, if there is one. */
  function Parse(s: string): (r: Option<Decimal>)
    ensures r.Some? ==> Str(r.value) == s
  {
    var negative := s != "" && s[0] == '-';
    var body := ParseUnsigned(if negative then s[1..] else s);
    if body.None? then None
    else
      var d := Decimal(negative, body.value.0, body.value.1);
      if Str(d) == s then Some(d) else None
  }

  lemma {:induction false} ParseSignedDigits(n: int)
    ensures ParseSigned(SignedDigits(n)) == Some(n)
  {
    var s := SignedDigits(n);
    if n < 0 {
      assert s[1..] == Digits(-n);
      NatOfDigits(-n);
    } else {
      assert s[1..] == Digits(n);
      NatOfDigits(n);
    }
  }

  lemma {:induction false} SplitPointed(whole: string, fraction: string)
    requires '.' !in whole
    ensures SplitPoint(whole + ['.'] + fraction) == (whole, fraction)
    ensures SplitPoint(whole) == (whole, "")
  {
    var m := whole + ['.'] + fraction;
    FindFirst(whole, '.', fraction);
    assert m[..|whole|] == whole && m[|whole| + 1..] == fraction;
  }

  /** The parts of a printed mantissa. */
  function Parts(digits: string, point: int): (string, string)
    requires point <= |digits|
  {
    if point <= 0 then ("0", Zeros(-point) + digits) else (digits[..point], digits[point..])
  }

  lemma {:induction false} DigitsHaveNoPoint(digits: string, n: nat)
    requires AllDigits(digits) && n <= |digits|
    ensures '.' !in digits[..n]
  {
  }

  lemma {:induction false} MantissaCases(digits: string, point: int)
    requires |digits| > 0 && point <= |digits|
    ensures point <= 0 ==> Mantissa(digits, point) == "0" + ['.'] + (Zeros(-point) + digits)
    ensures point == |digits| ==> Mantissa(digits, point) == digits
    ensures 0 < point < |digits| ==> Mantissa(digits, point) == digits[..point] + ['.'] + digits[point..]
  {
  }

  lemma {:induction false} SplitPrinted(digits: string, point: int)
    requires |digits| > 0 && AllDigits(digits) && point <= |digits|
    ensures SplitPoint(Mantissa(digits, point)) == Parts(digits, point)
  {
    MantissaCases(digits, point);
    hide Mantissa, SplitPoint, Zeros, AllDigits;
    if point <= 0 {
      SplitPointed("0", Zeros(-point) + digits);
    } else {
      DigitsHaveNoPoint(digits, point);
      SplitPointed(digits[..point], digits[point..]);
      assert point == |digits| ==> digits[..point] == digits && digits[point..] == "";
    }
  }

  lemma {:induction false} LeadingZeroParts(digits: string, n: nat)
    requires AllDigits(digits)
    ensures NatOf("0" + (Zeros(n) + digits)) == NatOf(digits)
  {
    LeadingZeros(n + 1, digits);
    assert "0" + (Zeros(n) + digits) == Zeros(n + 1) + digits;
  }

  lemma {:induction false} ReadParts(digits: string, point: int, shift: int)
    requires |digits| > 0 && AllDigits(digits) && point <= |digits|
    ensures FromParts(Parts(digits, point), shift) == Some((NatOf(digits), shift - (|digits| - point)))
  {
    if point <= 0 {
      LeadingZeroParts(digits, -point);
    } else {
      assert digits[..point] + digits[point..] == digits;
    }
  }

  lemma {:induction false} ParseScientific(m: string, n: int)
    requires 'E' !in m
    ensures ParseUnsigned(m) == FromParts(SplitPoint(m), 0)
    ensures ParseUnsigned(m + "E" + SignedDigits(n)) == FromParts(SplitPoint(m), n)
  {
    var tail := SignedDigits(n);
    var s := m + ['E'] + tail;
    FindFirst(m, 'E', tail);
    assert s[..|m|] == m && s[|m| + 1..] == tail;
    ParseSignedDigits(n);
  }

  lemma {:induction false} MantissaHasNoExponent(digits: string, point: int)
    requires |digits| > 0 && AllDigits(digits) && point <= |digits|
    ensures 'E' !in Mantissa(digits, point)
  {
  }

  lemma {:induction false} ReadPlain(s: string, digits: string, point: int)
    requires |digits| > 0 && AllDigits(digits) && point <= |digits|
    requires s == Mantissa(digits, point)
    ensures ParseUnsigned(s) == Some((NatOf(digits), point - |digits|))
  {
    MantissaHasNoExponent(digits, point);
    ParseScientific(s, 0);
    SplitPrinted(digits, point);
    ReadParts(digits, point, 0);
  }

  lemma {:induction false} ReadScientific(s: string, m: string, digits: string, point: int, n: int)
    requires |digits| > 0 && AllDigits(digits) && point <= |digits|
    requires m == Mantissa(digits, point) && s == m + "E" + SignedDigits(n)
    ensures ParseUnsigned(s) == Some((NatOf(digits), n + point - |digits|))
  {
    MantissaHasNoExponent(digits, point);
    ParseScientific(m, n);
    SplitPrinted(digits, point);
    ReadParts(digits, point, n);
  }

  lemma {:induction false} ParseUnsignedDigits(digits: string, exponent: int, s: string)
    requires |digits| > 0 && AllDigits(digits)
    requires s == Unsigned(digits, exponent)
    ensures ParseUnsigned(s) == Some((NatOf(digits), exponent))
  {
    hide ParseUnsigned, Mantissa, SignedDigits, NatOf, AllDigits;
    var left := exponent + |digits|;
    if exponent <= 0 && left > -6 {
      ReadPlain(s, digits, left);
    } else {
      ReadScientific(s, Mantissa(digits, 1), digits, 1, left - 1);
    }
  }

  /** Printing a decimal loses nothing, its trailing zeros and the sign of zero included. */
  lemma {:induction false} ParseStr(d: Decimal)
    ensures Parse(Str(d)) == Some(d)
  {
    var body := Unsigned(Digits(d.coefficient), d.exponent);
    ParseUnsignedDigits(Digits(d.coefficient), d.exponent, body);
    NatOfDigits(d.coefficient);
    UnsignedStart(Digits(d.coefficient), d.exponent);
    if d.negative {
      assert Str(d)[1..] == body;
    } else {
      assert Str(d) == body;
    }
  }

  lemma {:induction false} UnsignedStart(digits: string, exponent: int)
    requires |digits| > 0 && AllDigits(digits)
    ensures |Unsigned(digits, exponent)| > 0 && IsDigit(Unsigned(digits, exponent)[0])
  {
  }

  predicate NumeralChar(c: char) {
    IsDigit(c) || c == '.' || c == '-' || c == '+' || c == 'E'
  }

  predicate NumeralChars(s: string) {
    forall i :: 0 <= i < |s| ==> NumeralChar(s[i])
  }

  lemma {:induction false} MantissaChars(digits: string, point: int)
    requires |digits| > 0 && AllDigits(digits) && point <= |digits|
    ensures NumeralChars(Mantissa(digits, point)) && |Mantissa(digits, point)| > 0
  {
  }

  /** A printed decimal is never empty and has no space or parenthesis. */
  lemma {:induction false} StrChars(d: Decimal)
    ensures |Str(d)| > 0 && NumeralChars(Str(d))
  {
    var digits := Digits(d.coefficient);
    var left := d.exponent + |digits|;
    if d.exponent <= 0 && left > -6 {
      MantissaChars(digits, left);
    } else {
      MantissaChars(digits, 1);
      assert NumeralChars(SignedDigits(left - 1));
      assert NumeralChars(Mantissa(digits, 1) + "E" + SignedDigits(left - 1)) by {
        hide *;
        JoinChars(Mantissa(digits, 1), SignedDigits(left - 1));
      }
    }
  }

  lemma {:induction false} JoinChars(a: string, b: string)
    requires NumeralChars(a) && NumeralChars(b)
    ensures NumeralChars(a + "E" + b)
  {
  }
}
