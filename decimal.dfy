/** Decimal text of numbers as Python prints them: `str(n)` / `f"{n}"` for an
    integer, and the fixed-point format specs `.1f` and `.2f` for a float.
    A float is modelled by the exact real value it holds; CPython formats that
    exact value correctly rounded, ties going to the even last digit. */
module Decimal {

  predicate IsDigit(c: char)
  {
    '0' <= c <= '9'
  }

  predicate AllDigits(s: string)
  {
    forall i :: 0 <= i < |s| ==> IsDigit(s[i])
  }

  function DigitChar(d: nat): (c: char)
    requires d < 10
    ensures IsDigit(c) && c as int - '0' as int == d
  {
    ('0' as int + d) as char
  }

  function DigitValue(c: char): nat
    requires IsDigit(c)
  {
    c as int - '0' as int
  }

  /** The value of a string of decimal digits, most significant first. */
  function DigitsValue(s: string): nat
    requires AllDigits(s)
  {
    if s == [] then 0 else DigitsValue(s[..|s| - 1]) * 10 + DigitValue(s[|s| - 1])
  }

  /** `str(n)` for a natural number: its decimal digits, without leading zeros. */
  function NatToString(n: nat): (s: string)
    ensures |s| >= 1 && AllDigits(s)
    ensures s[0] == '0' ==> n == 0 && s == "0"
  {
    if n < 10 then [DigitChar(n)] else NatToString(n / 10) + [DigitChar(n % 10)]
  }

  /** Reading the digits of `str(n)` gives back `n`. */
  lemma {:induction false} NatToStringRoundTrip(n: nat)
    ensures DigitsValue(NatToString(n)) == n
  {
    if n >= 10 {
      var s := NatToString(n);
      assert s[..|s| - 1] == NatToString(n / 10);
      NatToStringRoundTrip(n / 10);
    }
  }

  /** Text of the form `digits` or `-digits`. */
  predicate IsIntText(s: string)
  {
    || (|s| >= 1 && AllDigits(s))
    || (|s| >= 2 && s[0] == '-' && AllDigits(s[1..]))
  }

  /** Python's `int(s)` on text of the form `IsIntText`. */
  function ParseInt(s: string): int
    requires IsIntText(s)
  {
    if s[0] == '-' then -(DigitsValue(s[1..]) as int) else DigitsValue(s)
  }

  /** `str(i)` / `f"{i}"` for a Python integer. */
  function IntToString(i: int): (s: string)
  {
    if i < 0 then "-" + NatToString(-i) else NatToString(i)
  }

  /** The integer text is well formed, carries no comma and reads back as `i`. */
  lemma IntToStringRoundTrip(i: int)
    ensures IsIntText(IntToString(i)) && ',' !in IntToString(i)
    ensures ParseInt(IntToString(i)) == i
  {
    var s := IntToString(i);
    if i < 0 {
      assert s[1..] == NatToString(-i);
      NatToStringRoundTrip(-i);
      assert s[0] == '-' && forall k :: 1 <= k < |s| ==> s[k] == s[1..][k - 1];
    } else {
      NatToStringRoundTrip(i);
    }
  }

  /** The nearest natural number to `y >= 0`, ties going to the even one. */
  function RoundHalfEven(y: real): (n: nat)
    requires y >= 0.0
    ensures -0.5 <= y - n as real <= 0.5
    ensures (y - n as real == 0.5 || n as real - y == 0.5) ==> n % 2 == 0
  {
    var f := y.Floor;
    var frac := y - f as real;
    if frac < 0.5 then f
    else if frac > 0.5 then f + 1
    else if f % 2 == 0 then f
    else f + 1
  }

  /** The precisions `num_to_str` asks for: `.1f` and `.2f`. */
  predicate IsPrecision(d: nat)
  {
    d == 1 || d == 2
  }

  /** `10^d` for a supported precision. */
  function Scale(d: nat): (p: nat)
    requires IsPrecision(d)
    ensures p >= 10
  {
    if d == 1 then 10 else 100
  }

  /** `y * 10^d` for a supported precision. */
  function ScaleUp(y: real, d: nat): real
    requires IsPrecision(d)
  {
    if d == 1 then y * 10.0 else y * 100.0
  }

  /** `y / 10^d` for a supported precision. */
  function ScaleDown(y: real, d: nat): real
    requires IsPrecision(d)
  {
    if d == 1 then y / 10.0 else y / 100.0
  }

  /** `v < 10^d` written with exactly `d` digits, leading zeros included. */
  function FracDigits(v: nat, d: nat): (s: string)
    requires IsPrecision(d) && v < Scale(d)
    ensures |s| == d && AllDigits(s)
    ensures DigitsValue(s) == v
  {
    if d == 1 then
      var s := [DigitChar(v)];
      assert s[..0] == [];
      s
    else
      var s := [DigitChar(v / 10), DigitChar(v % 10)];
      assert s[..1] == [DigitChar(v / 10)] && s[..1][..0] == [];
      assert DigitsValue(s[..1]) == v / 10;
      s
  }

  function Abs(x: real): real
  {
    if x < 0.0 then -x else x
  }

  /** The value `.{d}f` prints for `x`: `x` rounded half-even to `d` decimals. */
  function RoundedTo(x: real, d: nat): real
    requires IsPrecision(d)
  {
    var n := RoundHalfEven(ScaleUp(Abs(x), d)) as real;
    ScaleDown(if x < 0.0 then -n else n, d)
  }

  /** `f"{x:.1f}"` (`d == 1`) or `f"{x:.2f}"` (`d == 2`) for a finite float `x`. */
  function FormatFixed(x: real, d: nat): (s: string)
    requires IsPrecision(d)
    ensures IsFixedText(s, d)
    ensures (|s| >= 1 && s[0] == '-') <==> x < 0.0
    ensures NoLeadingZero(s)
  {
    ScaledText(x < 0.0, RoundHalfEven(ScaleUp(Abs(x), d)), d)
  }

  /** The text of `n / 10^d` with `d` decimals, a minus sign first when `negative`. */
  function ScaledText(negative: bool, n: nat, d: nat): (s: string)
    requires IsPrecision(d)
    ensures IsFixedText(s, d)
    ensures (|s| >= 1 && s[0] == '-') <==> negative
    ensures NoLeadingZero(s)
  {
    var p := Scale(d);
    var sign := if negative then "-" else "";
    var whole := NatToString(n / p);
    var frac := FracDigits(n % p, d);
    FixedTextOf(sign, whole, frac);
    FixedSign(sign, whole, frac);
    var b := whole + "." + frac;
    assert b[0] == whole[0];
    assert whole[0] == '0' ==> b[1] == '.';
    sign + whole + "." + frac
  }

  /** The whole part has no leading zero: a `0` first is the whole of it. */
  predicate NoLeadingZero(s: string)
  {
    var b := FixedBody(s);
    |b| >= 2 && (b[0] == '0' ==> b[1] == '.')
  }

  /** `s` without its leading minus sign, if it has one. */
  function FixedBody(s: string): string
  {
    if |s| >= 1 && s[0] == '-' then s[1..] else s
  }

  /** Text of the form `[-]digits.digits` with exactly `d` digits after the point. */
  predicate IsFixedText(s: string, d: nat)
  {
    var b := FixedBody(s);
    && |b| >= d + 2
    && AllDigits(b[..|b| - d - 1])
    && b[|b| - d - 1] == '.'
    && AllDigits(b[|b| - d..])
  }

  lemma FixedTextOf(sign: string, whole: string, frac: string)
    requires sign == "-" || sign == ""
    requires |whole| >= 1 && AllDigits(whole) && AllDigits(frac)
    ensures FixedBody(sign + whole + "." + frac) == whole + "." + frac
    ensures IsFixedText(sign + whole + "." + frac, |frac|)
  {
    var b := whole + "." + frac;
    assert sign + whole + "." + frac == sign + b;
    assert IsDigit(whole[0]);
    if sign == "-" {
      assert (sign + b)[1..] == b;
    } else {
      assert sign + b == b;
    }
    assert b[..|b| - |frac| - 1] == whole;
    assert b[|b| - |frac|..] == frac;
  }

  /** The number a fixed-point text with `d` decimals stands for, in units of `10^-d`. */
  function FixedUnits(s: string, d: nat): int
    requires IsPrecision(d) && IsFixedText(s, d)
  {
    var b := FixedBody(s);
    var k := DigitsValue(b[..|b| - d - 1]) * Scale(d) + DigitsValue(b[|b| - d..]);
    if |s| >= 1 && s[0] == '-' then -k else k
  }

  /** The number a fixed-point text with `d` decimals stands for. */
  function FixedValue(s: string, d: nat): real
    requires IsPrecision(d) && IsFixedText(s, d)
  {
    ScaleDown(FixedUnits(s, d) as real, d)
  }

  /** Fixed-point text holds no comma and never reads as the word `null`. */
  lemma FixedTextPlain(s: string, d: nat)
    requires IsFixedText(s, d)
    ensures ',' !in s && s != "null"
  {
    var b := FixedBody(s);
    var dot := |b| - d - 1;
    forall i | 0 <= i < |b| ensures b[i] != ',' {
      if i < dot {
        assert b[i] == b[..dot][i];
      } else if i > dot {
        assert b[i] == b[|b| - d..][i - (dot + 1)];
      }
    }
    if |s| >= 1 && s[0] == '-' {
      assert forall i :: 1 <= i < |s| ==> s[i] == b[i - 1];
      assert s[dot + 1] == '.';
    } else {
      assert s == b;
    }
  }

  /** `.1f` / `.2f` text reads back as `x` rounded half-even to `d` decimals. */
  lemma FormatFixedValue(x: real, d: nat)
    requires IsPrecision(d)
    ensures FixedValue(FormatFixed(x, d), d) == RoundedTo(x, d)
  {
    var n := RoundHalfEven(ScaleUp(Abs(x), d));
    assert FormatFixed(x, d) == ScaledText(x < 0.0, n, d);
    ScaledTextUnits(x < 0.0, n, d);
  }

  /** The printed value lies within half a unit of the last printed digit of `x`. */
  lemma RoundedToError(x: real, d: nat)
    requires IsPrecision(d)
    ensures -ScaleDown(0.5, d) <= x - RoundedTo(x, d) <= ScaleDown(0.5, d)
  {
    var n := RoundHalfEven(ScaleUp(Abs(x), d)) as real;
    assert -0.5 <= ScaleUp(Abs(x), d) - n <= 0.5;
  }

  lemma ScaledTextUnits(negative: bool, n: nat, d: nat)
    requires IsPrecision(d)
    ensures FixedUnits(ScaledText(negative, n, d), d) == if negative then -(n as int) else n
  {
    var p := Scale(d);
    var sign := if negative then "-" else "";
    var whole := NatToString(n / p);
    var frac := FracDigits(n % p, d);
    FixedUnitsOf(sign, whole, frac, d);
    NatToStringRoundTrip(n / p);
    assert (n / p) * p + n % p == n;
  }

  /** The units of `[-]whole.frac` are those of its digits, whole part scaled up. */
  lemma FixedUnitsOf(sign: string, whole: string, frac: string, d: nat)
    requires sign == "-" || sign == ""
    requires IsPrecision(d) && |frac| == d
    requires |whole| >= 1 && AllDigits(whole) && AllDigits(frac)
    ensures IsFixedText(sign + whole + "." + frac, d)
    ensures var k := DigitsValue(whole) * Scale(d) + DigitsValue(frac);
      FixedUnits(sign + whole + "." + frac, d) == if sign == "-" then -k else k
  {
    var s := sign + whole + "." + frac;
    FixedTextOf(sign, whole, frac);
    PointSplit(whole, frac);
    FixedSign(sign, whole, frac);
    var b := FixedBody(s);
    assert b[..|b| - d - 1] == whole && b[|b| - d..] == frac;
    assert (|s| >= 1 && s[0] == '-') == (sign == "-");
  }

  /** The digits on either side of the point; a separate step keeps the solver's work small. */
  lemma PointSplit(whole: string, frac: string)
    ensures var b := whole + "." + frac;
      b[..|b| - |frac| - 1] == whole && b[|b| - |frac|..] == frac
  {
  }

  /** Fixed-point text starts with a minus sign exactly when it was given one. */
  lemma FixedSign(sign: string, whole: string, frac: string)
    requires sign == "-" || sign == ""
    requires |whole| >= 1 && AllDigits(whole)
    ensures var s := sign + whole + "." + frac;
      (|s| >= 1 && s[0] == '-') == (sign == "-")
  {
    assert IsDigit(whole[0]);
    assert (sign + whole + "." + frac)[|sign|] == whole[0];
  }
}
