/**
 * Decimal numbers as the two front ends print and read them.
 *
 * `Number.prototype.toFixed(d)` is modelled on exact reals: it takes the sign
 * apart (a negative input gets a leading "-", even when the rounded magnitude is
 * zero), then picks the integer n closest to |x| * 10^d, the larger one on a tie,
 * and prints n with a point inserted d digits from the right. `ParseDecimal`
 * reads back plain decimal text (optional sign, digits, optional fraction); it is
 * what `parseFloat` does on the output of `toFixed`, and the part of Python's
 * `float(str)` that the model covers.
 */
module Decimal {

  import opened Wrappers
  import opened Text

  function Pow10(n: nat): (p: nat)
    ensures p >= 1
  {
    if n == 0 then 1 else 10 * Pow10(n - 1)
  }

  function Abs(x: real): (r: real)
    ensures r >= 0.0 && (r == x || r == -x)
  {
    if x < 0.0 then -x else x
  }

  /** A rounded number: sign, magnitude scaled by 10^digits, and the number of fraction digits. */
  datatype Fixed = Fixed(negative: bool, magnitude: nat, digits: nat)

  /** The number a rounded value stands for. */
  function Value(f: Fixed): real
  {
    var v := f.magnitude as real / Pow10(f.digits) as real;
    if f.negative then -v else v
  }

  /**
   * `x.toFixed(digits)`: the magnitude is the integer nearest to |x| * 10^digits,
   * ties going up, and the sign is that of x.
   */
  function ToFixed(x: real, digits: nat): (f: Fixed)
    ensures f.digits == digits && f.negative == (x < 0.0)
    ensures Abs(x) * Pow10(digits) as real - 0.5 < f.magnitude as real
    ensures f.magnitude as real <= Abs(x) * Pow10(digits) as real + 0.5
  {
    var scaled := Abs(x) * Pow10(digits) as real;
    Fixed(x < 0.0, (scaled + 0.5).Floor as nat, digits)
  }

  /** Of two non-negative numbers, the larger never rounds to a smaller magnitude. */
  lemma ToFixedMonotone(x: real, y: real, digits: nat)
    requires 0.0 <= x <= y
    ensures ToFixed(x, digits).magnitude <= ToFixed(y, digits).magnitude
  {
    var p := Pow10(digits) as real;
    ScaleMonotone(x, y, p);
    FloorMonotone(x * p + 0.5, y * p + 0.5);
  }

  lemma ScaleMonotone(x: real, y: real, p: real)
    requires x <= y && p >= 0.0
    ensures x * p <= y * p
  {
  }

  lemma FloorMonotone(u: real, v: real)
    requires u <= v
    ensures u.Floor <= v.Floor
  {
  }

  // ---- printing ----

  function DigitChar(d: nat): (c: char)
    requires d < 10
    ensures IsDigit(c)
  {
    ('0' as int + d) as char
  }

  predicate AllDigits(s: string) {
    forall i :: 0 <= i < |s| ==> IsDigit(s[i])
  }

  /** The decimal numeral of n, without leading zeros. */
  function NatText(n: nat): (s: string)
    ensures |s| >= 1 && AllDigits(s)
    ensures s[0] == '0' ==> n == 0
  {
    if n < 10 then [DigitChar(n)] else NatText(n / 10) + [DigitChar(n % 10)]
  }

  /** The number a string of decimal digits denotes. */
  function DigitsValue(s: string): nat
    requires AllDigits(s)
  {
    if s == [] then 0 else 10 * DigitsValue(s[..|s| - 1]) + (s[|s| - 1] as int - '0' as int)
  }

  lemma {:induction false} NatTextValue(n: nat)
    ensures DigitsValue(NatText(n)) == n
  {
    if n >= 10 {
      NatTextValue(n / 10);
      var s := NatText(n);
      assert s[..|s| - 1] == NatText(n / 10);
    }
  }

  /** A number below 10^d has at most d digits. */
  lemma {:induction false} NatTextLength(n: nat, d: nat)
    requires d >= 1 && n < Pow10(d)
    ensures |NatText(n)| <= d
  {
    if n >= 10 {
      assert d >= 2;
      assert n / 10 < Pow10(d - 1);
      NatTextLength(n / 10, d - 1);
    }
  }

  function Zeros(k: nat): (s: string)
    ensures |s| == k && AllDigits(s)
  {
    if k == 0 then "" else "0" + Zeros(k - 1)
  }

  /** Left-pads a digit string with zeros to `width` characters. */
  function PadZeros(s: string, width: nat): (r: string)
    requires AllDigits(s)
    ensures AllDigits(r)
    ensures |s| <= width ==> |r| == width
  {
    if |s| < width then Zeros(width - |s|) + s else s
  }

  lemma {:induction false} ZerosValue(k: nat, t: string)
    requires AllDigits(t)
    ensures DigitsValue(Zeros(k) + t) == DigitsValue(t)
    decreases |t|, k
  {
    if t == [] {
      if k > 0 {
        assert Zeros(k) + t == Zeros(k);
        var z := Zeros(k);
        assert z[..|z| - 1] == Zeros(k - 1) by {
          assert z == "0" + Zeros(k - 1);
          if k > 1 {
            ZerosEndsWithZero(k - 1);
          }
          ZerosShift(k);
        }
        ZerosValue(k - 1, t);
        assert Zeros(k - 1) + t == Zeros(k - 1);
      }
    } else {
      var u := Zeros(k) + t;
      assert u[..|u| - 1] == Zeros(k) + t[..|t| - 1];
      ZerosValue(k, t[..|t| - 1]);
    }
  }

  lemma ZerosEndsWithZero(k: nat)
    requires k >= 1
    ensures Zeros(k)[k - 1] == '0'
  {
  }

  lemma {:induction false} ZerosShift(k: nat)
    requires k >= 1
    ensures Zeros(k)[..k - 1] == Zeros(k - 1)
  {
    if k > 1 {
      ZerosShift(k - 1);
      assert Zeros(k)[..k - 1] == "0" + Zeros(k - 1)[..k - 2];
    }
  }

  /** The digits before the point in the text of a rounded value. */
  function WholeText(f: Fixed): (s: string)
    ensures |s| >= 1 && AllDigits(s)
  {
    NatText(Div(f.magnitude, Pow10(f.digits)))
  }

  function Div(m: nat, p: nat): nat
    requires p >= 1
  {
    m / p
  }

  /** The point and the digits after it (nothing when there are no fraction digits). */
  function FractionText(f: Fixed): string
  {
    if f.digits == 0 then "" else "." + PadZeros(NatText(f.magnitude % Pow10(f.digits)), f.digits)
  }

  /** The text `toFixed` produces for a rounded value. */
  function FixedText(f: Fixed): string
  {
    (if f.negative then "-" else "") + WholeText(f) + FractionText(f)
  }

  /** The text starts with a sign or a digit and ends with a digit. */
  lemma FixedTextEnds(f: Fixed)
    ensures var s := FixedText(f);
      |s| >= 1 && (s[0] == '-' || IsDigit(s[0])) && IsDigit(s[|s| - 1])
  {
    var s := FixedText(f);
    var w := WholeText(f);
    var fr := FractionText(f);
    assert s[0] == (if f.negative then '-' else w[0]);
    if fr == "" {
      assert s[|s| - 1] == w[|w| - 1];
    } else {
      var p := PadZeros(NatText(f.magnitude % Pow10(f.digits)), f.digits);
      assert fr == "." + p && |p| >= 1;
      assert s[|s| - 1] == p[|p| - 1];
    }
  }

  // ---- reading ----

  /** Number of leading decimal digits of s. */
  function DigitPrefix(s: string): (n: nat)
    ensures n <= |s| && AllDigits(s[..n])
    ensures n < |s| ==> !IsDigit(s[n])
  {
    if s == [] || !IsDigit(s[0]) then 0
    else
      var n := 1 + DigitPrefix(s[1..]);
      assert s[..n] == [s[0]] + s[1..][..n - 1];
      n
  }

  lemma {:induction false} DigitPrefixOf(a: string, b: string)
    requires AllDigits(a)
    requires b == [] || !IsDigit(b[0])
    ensures DigitPrefix(a + b) == |a|
  {
    if a != [] {
      DigitPrefixOf(a[1..], b);
      assert (a + b)[1..] == a[1..] + b;
    } else {
      assert a + b == b;
    }
  }

  /** Unsigned decimal text: digits, optionally a point and more digits, at least one digit in all. */
  function ParseUnsigned(s: string): Option<Fixed>
  {
    var i := DigitPrefix(s);
    if i == |s| then
      if i > 0 then Some(Fixed(false, DigitsValue(s[..i]), 0)) else None
    else if s[i] == '.' then
      ParseFraction(s[..i], s[i + 1..])
    else
      None
  }

  /** The rest of a numeral after its point: digits only, and at least one digit on either side. */
  function ParseFraction(whole: string, frac: string): Option<Fixed>
    requires AllDigits(whole)
  {
    var j := DigitPrefix(frac);
    if j == |frac| && (|whole| > 0 || j > 0) then
      Some(Fixed(false, DigitsValue(whole + frac[..j]), j))
    else
      None
  }

  /**
   * Signed decimal text, read exactly: the result keeps every digit written,
   * `None` where the text is not a plain decimal numeral.
   */
  function ParseDecimal(s: string): Option<Fixed>
  {
    if s != [] && (s[0] == '-' || s[0] == '+') then
      match ParseUnsigned(s[1..])
      case None => None
      case Some(f) => Some(f.(negative := s[0] == '-'))
    else
      ParseUnsigned(s)
  }

  lemma {:induction false} DigitsValueAppend(a: string, b: string)
    requires AllDigits(a) && AllDigits(b)
    ensures DigitsValue(a + b) == DigitsValue(a) * Pow10(|b|) + DigitsValue(b)
  {
    if b != [] {
      var c := a + b;
      assert c[..|c| - 1] == a + b[..|b| - 1];
      var b' := b[..|b| - 1];
      var d := b[|b| - 1] as int - '0' as int;
      DigitsValueAppend(a, b');
      var x, y, q := DigitsValue(a), DigitsValue(b'), Pow10(|b'|);
      assert DigitsValue(c) == 10 * (x * q + y) + d;
      assert DigitsValue(b) == 10 * y + d;
      assert Pow10(|b|) == 10 * q;
      ShiftDigit(x, q, y, d);
    } else {
      assert a + b == a;
    }
  }

  lemma ShiftDigit(x: int, q: int, y: int, d: int)
    ensures 10 * (x * q + y) + d == x * (10 * q) + (10 * y + d)
  {
  }

  lemma QuotRem(m: nat, p: nat)
    requires p >= 1
    ensures Div(m, p) * p + m % p == m
  {
  }

  lemma ParseWhole(a: string)
    requires |a| >= 1 && AllDigits(a)
    ensures ParseUnsigned(a) == Some(Fixed(false, DigitsValue(a), 0))
  {
    DigitPrefixOf(a, "");
    assert a + "" == a;
    assert a[..|a|] == a;
  }

  lemma ParseWholeAndFraction(a: string, b: string)
    requires |a| >= 1 && AllDigits(a) && AllDigits(b)
    ensures ParseUnsigned(a + "." + b) == Some(Fixed(false, DigitsValue(a + b), |b|))
  {
    var u := a + "." + b;
    DigitPrefixOf(a, "." + b);
    assert u == a + ("." + b);
    assert u[..|a|] == a && u[|a|] == '.' && u[|a| + 1..] == b;
    DigitPrefixOf(b, "");
    assert b + "" == b && b[..|b|] == b;
  }

  /** The unsigned part of the text of a rounded value reads back as its magnitude and digits. */
  lemma UnsignedTextRoundTrip(f: Fixed)
    ensures ParseUnsigned(WholeText(f) + FractionText(f)) == Some(f.(negative := false))
  {
    var p := Pow10(f.digits);
    var a := WholeText(f);
    NatTextValue(Div(f.magnitude, p));
    if f.digits == 0 {
      assert a + FractionText(f) == a;
      ParseWhole(a);
      assert p == 1;
    } else {
      var b := FractionDigits(f);
      assert a + FractionText(f) == a + "." + b;
      ParseWholeAndFraction(a, b);
      DigitsValueAppend(a, b);
      var q := Div(f.magnitude, p);
      assert DigitsValue(a) == q && Pow10(|b|) == p;
      QuotRem(f.magnitude, p);
      assert DigitsValue(a + b) == f.magnitude;
    }
  }

  /** The digits after the point of a rounded value with at least one fraction digit. */
  function FractionDigits(f: Fixed): (b: string)
    requires f.digits >= 1
    ensures AllDigits(b) && |b| == f.digits
    ensures DigitsValue(b) == f.magnitude % Pow10(f.digits)
    ensures FractionText(f) == "." + b
  {
    var p := Pow10(f.digits);
    var r := f.magnitude % p;
    NatTextLength(r, f.digits);
    NatTextValue(r);
    ZerosValue(f.digits - |NatText(r)|, NatText(r));
    PadZeros(NatText(r), f.digits)
  }

  /** Reading back the text of a rounded value gives exactly that rounded value. */
  lemma ParseFixedText(f: Fixed)
    ensures ParseDecimal(FixedText(f)) == Some(f)
  {
    var u := WholeText(f) + FractionText(f);
    UnsignedTextRoundTrip(f);
    assert u[0] == WholeText(f)[0];
    assert FixedText(f) == (if f.negative then "-" else "") + u;
    ParseSign(u, f.negative);
  }

  /** A sign in front of unsigned text only sets the sign of what is read. */
  lemma ParseSign(u: string, negative: bool)
    requires |u| >= 1 && IsDigit(u[0]) && ParseUnsigned(u).Some?
    ensures ParseDecimal((if negative then "-" else "") + u) == Some(ParseUnsigned(u).value.(negative := negative))
  {
    if negative {
      var t := "-" + u;
      assert t[0] == '-' && t[1..] == u;
    } else {
      assert "" + u == u;
      assert ParseUnsigned(u).value.negative == false by {
        UnsignedIsPositive(u);
      }
    }
  }

  lemma UnsignedIsPositive(u: string)
    requires ParseUnsigned(u).Some?
    ensures !ParseUnsigned(u).value.negative
  {
  }
}
