/**
  Display formatting of tide heights.  Heights are in feet; in metric mode they
  are converted with the international foot (0.3048 m) and shown in metres.
  The number is rendered like Java's "%.1f": the sign, the integer part in
  decimal and exactly one digit after the point, rounded half up (away from
  zero) from the exact value.
*/
module FormatUtils {
  import opened Wrappers
  import opened Reals

  const MetersPerFoot: real := 0.3048

  /** A number as "%.1f" shows it: a sign and a whole number of tenths. */
  datatype Fixed1 = Fixed1(negative: bool, tenths: nat)

  /** The value a rendered number stands for. */
  function ValueOf(f: Fixed1): (v: real)
  {
    if f.negative then -(f.tenths as real) / 10.0 else f.tenths as real / 10.0
  }

  /** The nearest whole number to a non-negative x, ties rounded up. */
  function RoundHalfUp(x: real): (n: nat)
    requires x >= 0.0
    ensures n as real - 0.5 <= x < n as real + 0.5
  {
    (x + 0.5).Floor
  }

  /** Round x to one decimal place, half away from zero; the sign is kept even when the rounded magnitude is zero. */
  function ToFixed1(x: real): (f: Fixed1)
    ensures f.negative <==> x < 0.0
    ensures Abs(ValueOf(f) - x) <= 0.05
    ensures Abs(ValueOf(f) - x) == 0.05 ==> Abs(ValueOf(f)) > Abs(x)
  {
    Fixed1(x < 0.0, RoundHalfUp(Abs(x) * 10.0))
  }

  predicate IsDigit(c: char) { '0' <= c <= '9' }

  function DigitChar(d: nat): (c: char)
    requires d < 10
    ensures IsDigit(c)
  {
    ['0', '1', '2', '3', '4', '5', '6', '7', '8', '9'][d]
  }

  function DigitValue(c: char): (d: nat)
    requires IsDigit(c)
    ensures d < 10 && DigitChar(d) == c
  {
    (c as int - '0' as int)
  }

  /** Decimal digits of n, without leading zeros. */
  function NatToString(n: nat): (s: string)
    ensures |s| >= 1 && forall i :: 0 <= i < |s| ==> IsDigit(s[i])
    ensures |s| > 1 ==> s[0] != '0'
  {
    if n < 10 then [DigitChar(n)] else NatToString(n / 10) + [DigitChar(n % 10)]
  }

  /** The number a string of decimal digits denotes. */
  function DigitsValue(s: string): (n: nat)
    requires forall i :: 0 <= i < |s| ==> IsDigit(s[i])
  {
    if s == [] then 0 else DigitsValue(s[..|s| - 1]) * 10 + DigitValue(s[|s| - 1])
  }

  lemma {:induction false} NatToStringRoundTrip(n: nat)
    ensures DigitsValue(NatToString(n)) == n
  {
    if n >= 10 {
      var s := NatToString(n);
      var front := NatToString(n / 10);
      assert s[..|s| - 1] == front;
      NatToStringRoundTrip(n / 10);
    }
  }

  /** Java "%.1f" of a Fixed1: sign, integer part, point, one digit. */
  function Render(f: Fixed1): (s: string)
    ensures |s| >= 3 && s[|s| - 2] == '.' && IsDigit(s[|s| - 1])
    ensures |s| > 0 && s[0] == '-' <==> f.negative
  {
    (if f.negative then "-" else "") + NatToString(f.tenths / 10) + "." + [DigitChar(f.tenths % 10)]
  }

  function Unit(useMetric: bool): (u: string)
  {
    if useMetric then " m" else " ft"
  }

  /** The number shown for a height: the height itself, or the height converted to metres. */
  function DisplayedValue(height: real, useMetric: bool): (v: real)
  {
    if useMetric then height * MetersPerFoot else height
  }

  /** formatHeight: the height to one decimal followed by its unit. */
  function FormatHeight(height: real, useMetric: bool): (s: string)
    ensures |s| >= |Unit(useMetric)| + 3 && s[|s| - |Unit(useMetric)|..] == Unit(useMetric)
  {
    var shown := Render(ToFixed1(DisplayedValue(height, useMetric)));
    assert (shown + Unit(useMetric))[|shown|..] == Unit(useMetric);
    shown + Unit(useMetric)
  }

  /** Reads back "[-]digits.digit": the inverse of Render. */
  function ParseFixed1(s: string): (f: Option<Fixed1>)
  {
    var negative := |s| > 0 && s[0] == '-';
    var body := if negative then s[1..] else s;
    if |body| >= 3 && body[|body| - 2] == '.' && IsDigit(body[|body| - 1])
       && forall i :: 0 <= i < |body| - 2 ==> IsDigit(body[i])
    then Some(Fixed1(negative, DigitsValue(body[..|body| - 2]) * 10 + DigitValue(body[|body| - 1])))
    else None
  }

  /** Reads back a formatted height: the number shown and whether the unit is metres. */
  function ParseHeight(s: string): (r: Option<(Fixed1, bool)>)
  {
    if |s| >= 2 && s[|s| - 2..] == " m" && ParseFixed1(s[..|s| - 2]).Some? then
      Some((ParseFixed1(s[..|s| - 2]).value, true))
    else if |s| >= 3 && s[|s| - 3..] == " ft" && ParseFixed1(s[..|s| - 3]).Some? then
      Some((ParseFixed1(s[..|s| - 3]).value, false))
    else None
  }

  /** The unsigned part of a rendered number: its digits are those of the integer part, then the point and one digit. */
  lemma UnsignedParts(digits: string, d: char)
    requires |digits| >= 1 && forall i :: 0 <= i < |digits| ==> IsDigit(digits[i])
    requires IsDigit(d)
    ensures var body := digits + "." + [d];
      |body| >= 3 && body[|body| - 2] == '.' && body[|body| - 1] == d && body[..|body| - 2] == digits
      && (forall i :: 0 <= i < |body| - 2 ==> IsDigit(body[i])) && body[0] != '-'
  {
  }

  lemma RenderParses(f: Fixed1)
    ensures ParseFixed1(Render(f)) == Some(f)
  {
    var digits := NatToString(f.tenths / 10);
    var d := DigitChar(f.tenths % 10);
    var body := digits + "." + [d];
    UnsignedParts(digits, d);
    var s := Render(f);
    if f.negative {
      assert s == "-" + body;
      assert s[1..] == body;
    } else {
      assert s == body;
    }
    NatToStringRoundTrip(f.tenths / 10);
    assert DigitValue(d) == f.tenths % 10;
  }

  /** Render is injective: different numbers never print alike. */
  lemma RenderInjective(f: Fixed1, g: Fixed1)
    requires Render(f) == Render(g)
    ensures f == g
  {
    RenderParses(f);
    RenderParses(g);
  }

  /**
    A formatted height always reads back as the number shown, rounded to one
    decimal, and the unit chosen by useMetric alone.
  */
  lemma FormatHeightParses(height: real, useMetric: bool)
    ensures ParseHeight(FormatHeight(height, useMetric)) == Some((ToFixed1(DisplayedValue(height, useMetric)), useMetric))
  {
    var f := ToFixed1(DisplayedValue(height, useMetric));
    var r := Render(f);
    var s := FormatHeight(height, useMetric);
    assert s == r + Unit(useMetric);
    RenderParses(f);
    if useMetric {
      assert s[..|s| - 2] == r;
    } else {
      assert s[..|s| - 3] == r;
      assert s[|s| - 2..] != " m" by { assert s[|s| - 1] == 't'; }
    }
  }

  /**
    The unit suffix depends only on useMetric: " m" in metric mode and " ft"
    otherwise, whatever the height.
  */
  lemma UnitSuffix(height: real, useMetric: bool)
    ensures var s := FormatHeight(height, useMetric);
      (|s| >= 2 && s[|s| - 2..] == " m" <==> useMetric)
      && (|s| >= 3 && s[|s| - 3..] == " ft" <==> !useMetric)
  {
    var s := FormatHeight(height, useMetric);
    var r := Render(ToFixed1(DisplayedValue(height, useMetric)));
    assert s == r + Unit(useMetric);
    assert IsDigit(r[|r| - 1]);
    if useMetric {
      assert s[|s| - 2..] == " m";
      assert s[|s| - 3] == r[|r| - 1];
    } else {
      assert s[|s| - 3..] == " ft";
      assert s[|s| - 1] == 't';
    }
  }

  /**
    Exactly one digit follows the decimal point: the text before the unit is
    digits, a point and one digit, with an optional leading minus sign.
  */
  lemma OneDecimalDigit(height: real, useMetric: bool)
    ensures var s := FormatHeight(height, useMetric);
      var n := |s| - |Unit(useMetric)|;
      n >= 3 && s[n..] == Unit(useMetric) && s[n - 2] == '.' && IsDigit(s[n - 1])
      && (forall i :: 0 < i < n - 2 ==> IsDigit(s[i]))
      && (IsDigit(s[0]) || s[0] == '-')
  {
    var f := ToFixed1(DisplayedValue(height, useMetric));
    var digits := NatToString(f.tenths / 10);
    var s := FormatHeight(height, useMetric);
    assert s == (if f.negative then "-" else "") + digits + "." + [DigitChar(f.tenths % 10)] + Unit(useMetric);
  }

  /** The examples of the doc comment: 2.5 ft, and 2.5 ft = 0.762 m shown as 0.8 m. */
  lemma FormatHeightExamples()
    ensures FormatHeight(2.5, false) == "2.5 ft"
    ensures FormatHeight(2.5, true) == "0.8 m"
  {
    assert ToFixed1(2.5) == Fixed1(false, 25);
    assert NatToString(2) == "2";
    assert ToFixed1(2.5 * MetersPerFoot) == Fixed1(false, 8);
    assert NatToString(0) == "0";
  }
}
