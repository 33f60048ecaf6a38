/**
 JavaScript numbers as exact decimals. `Number(s)` is modelled on the strings
 the form produces (digits with at most one dot) and `String(n)` as the
 shortest positional rendering: no leading zeros, no trailing fractional
 zeros, no dot when the value is whole.
 */
module Numbers {
  import opened Text

  /** The value `units / 10^scale`. */
  datatype Decimal = Decimal(units: int, scale: nat)

  /** A JavaScript number: an exact decimal, or `NaN`. */
  datatype JsNumber = Finite(value: Decimal) | NaN

  function Pow10(k: nat): (p: nat)
    ensures p >= 1
  {
    if k == 0 then 1 else 10 * Pow10(k - 1)
  }

  lemma {:induction false} Pow10Add(a: nat, b: nat)
    ensures Pow10(a + b) == Pow10(a) * Pow10(b)
  {
    if b > 0 {
      Pow10Add(a, b - 1);
      assert Pow10(a + b) == 10 * Pow10(a + b - 1);
    }
  }

  function ValueOf(d: Decimal): real {
    d.units as real / Pow10(d.scale) as real
  }

  /** `d >= m`, decided on integers. */
  predicate AtLeast(d: Decimal, m: int) {
    d.units >= m * Pow10(d.scale)
  }

  /** `d <= m`, decided on integers. */
  predicate AtMost(d: Decimal, m: int) {
    d.units <= m * Pow10(d.scale)
  }

  lemma AtLeastIsValueOrder(d: Decimal, m: int)
    ensures AtLeast(d, m) <==> ValueOf(d) >= m as real
    ensures AtMost(d, m) <==> ValueOf(d) <= m as real
  {
    var p := Pow10(d.scale) as real;
    assert ValueOf(d) * p == d.units as real;
    assert (m * Pow10(d.scale)) as real == m as real * p;
  }

  function DigitValue(c: char): (v: nat)
    requires IsDigit(c)
    ensures v < 10
  {
    (c as int) - ('0' as int)
  }

  function DigitChar(v: nat): (c: char)
    requires v < 10
    ensures IsDigit(c) && DigitValue(c) == v
  {
    (('0' as int) + v) as char
  }

  /** The value of a string of decimal digits, most significant first. */
  function DigitsValue(ds: string): nat
    requires AllDigits(ds)
  {
    if |ds| == 0 then 0 else DigitsValue(ds[..|ds| - 1]) * 10 + DigitValue(ds[|ds| - 1])
  }

  lemma {:induction false} DigitsValueAppend(a: string, b: string)
    requires AllDigits(a) && AllDigits(b)
    ensures AllDigits(a + b)
    ensures DigitsValue(a + b) == DigitsValue(a) * Pow10(|b|) + DigitsValue(b)
  {
    if |b| == 0 {
      assert a + b == a;
    } else {
      var b' := b[..|b| - 1];
      var last := b[|b| - 1];
      assert (a + b)[..|a + b| - 1] == a + b';
      assert (a + b)[|a + b| - 1] == last;
      DigitsValueAppend(a, b');
      assert DigitsValue(a + b) == DigitsValue(a + b') * 10 + DigitValue(last);
      assert DigitsValue(b) == DigitsValue(b') * 10 + DigitValue(last);
      assert Pow10(|b|) == Pow10(|b'|) * 10;
      ShiftDigit(DigitsValue(a), Pow10(|b'|), DigitsValue(b'), DigitValue(last));
    }
  }

  /** `(x P + y) 10 + d == x (P 10) + (y 10 + d)`. */
  lemma ShiftDigit(x: int, p: int, y: int, d: int)
    ensures (x * p + y) * 10 + d == x * (p * 10) + (y * 10 + d)
  {
  }

  /** The shortest digit string of `n`: `"0"` for zero, no leading zero otherwise. */
  function NatDigits(n: nat): (ds: string)
    ensures 1 <= |ds| && AllDigits(ds)
    ensures DigitsValue(ds) == n
    ensures |ds| > 1 ==> ds[0] != '0'
  {
    if n < 10 then [DigitChar(n)]
    else
      var ds := NatDigits(n / 10) + [DigitChar(n % 10)];
      assert ds[..|ds| - 1] == NatDigits(n / 10);
      ds
  }

  /** Exactly `width` digits of `n`, with leading zeros. */
  function PadDigits(n: nat, width: nat): (ds: string)
    requires n < Pow10(width)
    ensures |ds| == width && AllDigits(ds)
    ensures DigitsValue(ds) == n
  {
    if width == 0 then ""
    else
      var ds := PadDigits(n / 10, width - 1) + [DigitChar(n % 10)];
      assert ds[..|ds| - 1] == PadDigits(n / 10, width - 1);
      ds
  }

  predicate HasDigit(s: string) {
    exists i :: 0 <= i < |s| && IsDigit(s[i])
  }

  /** A decimal numeral as the form fields hold it: digits, at most one dot, at least one digit. */
  predicate IsNumeral(s: string) {
    AllDigitsOrDots(s) && Count(s, '.') <= 1 && HasDigit(s)
  }

  /** `Number(s)`: `""` is zero, a numeral is its exact value (`"1."` is 1, `".5"` is 0.5), anything else `NaN`. */
  function ParseNumber(s: string): (n: JsNumber)
    ensures n.Finite? <==> s == "" || IsNumeral(s)
    ensures n.Finite? ==> n.value.units >= 0
  {
    if s == "" then Finite(Decimal(0, 0))
    else if IsNumeral(s) then
      var parts := Split(s, '.');
      SplitKeepsClass(s, '.', IsDigit);
      var frac := if |parts| == 2 then parts[1] else "";
      DigitsValueAppend(parts[0], frac);
      Finite(Decimal(DigitsValue(parts[0] + frac), |frac|))
    else NaN
  }

  /** The same value with trailing fractional zeros removed. */
  function Normalize(d: Decimal): (n: Decimal)
    ensures n.scale <= d.scale
    ensures n.scale == 0 || n.units % 10 != 0
    ensures d.units >= 0 ==> n.units >= 0
    decreases d.scale
  {
    if d.scale > 0 && d.units % 10 == 0 then Normalize(Decimal(d.units / 10, d.scale - 1)) else d
  }

  /** Normalising keeps the value: `units / 10^scale` is unchanged. */
  lemma {:induction false} NormalizeValue(d: Decimal)
    ensures d.units == Normalize(d).units * Pow10(d.scale - Normalize(d).scale)
    decreases d.scale
  {
    if d.scale > 0 && d.units % 10 == 0 {
      var d' := Decimal(d.units / 10, d.scale - 1);
      NormalizeValue(d');
      var n := Normalize(d');
      var k := d'.scale - n.scale;
      assert d.units == d'.units * 10;
      assert Pow10(k + 1) == Pow10(k) * 10;
      assert d.units == (n.units * Pow10(k)) * 10;
    }
  }

  lemma {:induction false} NormalizeIdempotent(d: Decimal)
    ensures Normalize(Normalize(d)) == Normalize(d)
    decreases d.scale
  {
    if d.scale > 0 && d.units % 10 == 0 {
      NormalizeIdempotent(Decimal(d.units / 10, d.scale - 1));
    }
  }

  /** Comparisons with whole numbers do not depend on trailing zeros. */
  lemma {:induction false} NormalizeCompare(d: Decimal, m: int)
    ensures AtLeast(Normalize(d), m) == AtLeast(d, m)
    ensures AtMost(Normalize(d), m) == AtMost(d, m)
    decreases d.scale
  {
    if d.scale > 0 && d.units % 10 == 0 {
      var d' := Decimal(d.units / 10, d.scale - 1);
      NormalizeCompare(d', m);
      var x := m * Pow10(d'.scale);
      assert m * Pow10(d.scale) == 10 * x;
      assert d.units == 10 * d'.units;
    }
  }

  lemma DivMod(u: nat, p: nat)
    requires p > 0
    ensures u / p >= 0 && 0 <= u % p < p
    ensures u == (u / p) * p + u % p
  {
  }

  /** `String(n)` for `n >= 0`. */
  function ShowMagnitude(d: Decimal): (s: string)
    requires d.units >= 0
  {
    var n := Normalize(d);
    var p := Pow10(n.scale);
    DivMod(n.units, p);
    NatDigits(n.units / p) + (if n.scale == 0 then "" else "." + PadDigits(n.units % p, n.scale))
  }

  /** `String(n)`. */
  function Show(d: Decimal): string {
    if d.units < 0 then "-" + ShowMagnitude(Decimal(-d.units, d.scale)) else ShowMagnitude(d)
  }

  lemma DigitsHaveNoDot(a: string)
    requires AllDigits(a)
    ensures '.' !in a && Count(a, '.') == 0
  {
    CountZero(a, '.');
  }

  /** A non-empty digit string is a numeral with a single piece. */
  lemma WholeNumeral(a: string)
    requires AllDigits(a) && |a| >= 1
    ensures IsNumeral(a) && Split(a, '.') == [a]
  {
    DigitsHaveNoDot(a);
    SplitNoSep(a, '.');
    assert IsDigit(a[0]);
  }

  /** A run of digits is a whole number. */
  lemma ParseWhole(a: string)
    requires AllDigits(a) && |a| >= 1
    ensures ParseNumber(a) == Finite(Decimal(DigitsValue(a), 0))
  {
    WholeNumeral(a);
    assert a + "" == a;
  }

  lemma DigitsDotDigitsChars(a: string, b: string)
    requires AllDigits(a) && AllDigits(b)
    ensures AllDigitsOrDots(a + ['.'] + b)
  {
    var s := a + ['.'] + b;
    forall i | 0 <= i < |s|
      ensures IsDigitOrDot(s[i])
    {
      if i < |a| {
        assert s[i] == a[i];
      } else if i > |a| {
        assert s[i] == b[i - |a| - 1];
      }
    }
  }

  lemma DigitsDotDigitsCount(a: string, b: string)
    requires AllDigits(a) && AllDigits(b)
    ensures Count(a + ['.'] + b, '.') == 1
  {
    DigitsHaveNoDot(a);
    DigitsHaveNoDot(b);
    CountAppend(a + ['.'], b, '.');
    CountAppend(a, ['.'], '.');
    assert Count(['.'], '.') == 1;
  }

  /** Digits, one dot, digits: a numeral that splits into its two sides. */
  lemma FractionalNumeral(a: string, b: string)
    requires AllDigits(a) && AllDigits(b) && |a| >= 1
    ensures IsNumeral(a + ['.'] + b) && Split(a + ['.'] + b, '.') == [a, b]
  {
    var s := a + ['.'] + b;
    SplitOneDot(a, b);
    assert s[0] == a[0] && IsDigit(a[0]);
  }

  /** `String(n)` of a whole value is just its digits. */
  lemma ShowWhole(d: Decimal)
    requires d.units >= 0 && Normalize(d).scale == 0
    ensures ShowMagnitude(d) == NatDigits(Normalize(d).units)
  {
    assert Normalize(d).units / 1 == Normalize(d).units;
  }

  /** `String(n)` of a value with a fraction: with `q` and `m` the quotient and
      remainder of the normalised units by `10^s`, the whole part `q`, a dot,
      and `m` in exactly `s` digits. */
  lemma ShowFraction(d: Decimal, q: nat, m: nat, s: nat)
    requires d.units >= 0 && s > 0 && m < Pow10(s)
    requires Normalize(d).scale == s
    requires Normalize(d).units / Pow10(s) == q && Normalize(d).units % Pow10(s) == m
    ensures ShowMagnitude(d) == NatDigits(q) + ['.'] + PadDigits(m, s)
  {
    var whole, frac := NatDigits(q), PadDigits(m, s);
    assert ShowMagnitude(d) == whole + ("." + frac);
    assert whole + ("." + frac) == whole + ['.'] + frac;
  }

  /** Two digit strings around one dot split back into the two. */
  lemma SplitOneDot(a: string, b: string)
    requires AllDigits(a) && AllDigits(b)
    ensures Split(a + ['.'] + b, '.') == [a, b]
    ensures AllDigitsOrDots(a + ['.'] + b) && Count(a + ['.'] + b, '.') == 1
  {
    DigitsHaveNoDot(a);
    DigitsHaveNoDot(b);
    SplitAround(a, b, '.');
    SplitNoSep(a, '.');
    SplitNoSep(b, '.');
    DigitsDotDigitsChars(a, b);
    DigitsDotDigitsCount(a, b);
  }

  /** `Number("a.b")` is the digits of both sides over ten to the length of `b`
      (either side may be empty, not both). */
  lemma ParseFraction(a: string, b: string)
    requires AllDigits(a) && AllDigits(b) && |a| + |b| >= 1
    ensures AllDigits(a + b)
    ensures ParseNumber(a + ['.'] + b) == Finite(Decimal(DigitsValue(a + b), |b|))
  {
    var s := a + ['.'] + b;
    SplitOneDot(a, b);
    if |a| > 0 {
      assert s[0] == a[0];
    } else {
      assert s[1] == b[0];
    }
    DigitsValueAppend(a, b);
  }

  /** Without a digit, a digit-and-dot string is all dots. */
  lemma {:induction false} DotsOnly(s: string)
    requires AllDigitsOrDots(s) && !HasDigit(s)
    ensures Count(s, '.') == |s|
  {
    if |s| > 0 {
      assert !IsDigit(s[0]);
      assert forall i :: 0 <= i < |s[1..]| ==> s[1..][i] == s[i + 1];
      DotsOnly(s[1..]);
    }
  }

  /** Digits and at most one dot: the empty string, a lone dot, or a numeral. */
  lemma NumeralOrDot(s: string)
    requires AllDigitsOrDots(s) && Count(s, '.') <= 1
    ensures s == "" || s == "." || IsNumeral(s)
  {
    if !HasDigit(s) {
      DotsOnly(s);
      if |s| == 1 {
        assert !IsDigit(s[0]);
        assert s == [s[0]];
      }
    }
  }

  /** The rendering of a non-negative number is a numeral, and has as many
      fractional digits as the normalised value's scale. */
  lemma ShowShape(d: Decimal)
    requires d.units >= 0
    ensures IsNumeral(ShowMagnitude(d))
    ensures |Split(ShowMagnitude(d), '.')| == 1 <==> Normalize(d).scale == 0
    ensures |Split(ShowMagnitude(d), '.')| <= 2
    ensures |Split(ShowMagnitude(d), '.')| == 2 ==> |Split(ShowMagnitude(d), '.')[1]| == Normalize(d).scale
    ensures |Split(ShowMagnitude(d), '.')[0]| >= 1
  {
    var n := Normalize(d);
    var p := Pow10(n.scale);
    DivMod(n.units, p);
    var a := NatDigits(n.units / p);
    if n.scale == 0 {
      ShowWhole(d);
      WholeNumeral(ShowMagnitude(d));
    } else {
      var q, m := DivideUnits(n.units, p);
      ShowFraction(d, q, m, n.scale);
      FractionalNumeral(a, PadDigits(n.units % p, n.scale));
    }
  }

  /** `Number(String(n)) == n`: the rendering parses back to the normalised value. */
  lemma ParseShow(d: Decimal)
    requires d.units >= 0
    ensures ParseNumber(ShowMagnitude(d)) == Finite(Normalize(d))
  {
    var n := Normalize(d);
    if n.scale == 0 {
      ShowWhole(d);
      var a := NatDigits(n.units);
      WholeNumeral(a);
      assert a + "" == a;
    } else {
      var p := Pow10(n.scale);
      var q, m := DivideUnits(n.units, p);
      ShowFraction(d, q, m, n.scale);
      ParseWholeDotPadded(q, m, n.scale);
    }
  }

  /** Quotient and remainder by a positive divisor, with the facts the proofs use. */
  lemma DivideUnits(u: nat, p: nat) returns (q: nat, m: nat)
    requires p > 0
    ensures q == u / p && m == u % p && m < p
    ensures u == q * p + m
  {
    DivMod(u, p);
    q, m := u / p, u % p;
  }

  /** A whole part, a dot and a padded fraction parse to their combined units. */
  lemma ParseWholeDotPadded(q: nat, m: nat, w: nat)
    requires m < Pow10(w)
    ensures ParseNumber(NatDigits(q) + ['.'] + PadDigits(m, w)) == Finite(Decimal(q * Pow10(w) + m, w))
  {
    var a, b := NatDigits(q), PadDigits(m, w);
    ParseFraction(a, b);
    DigitsValueAppend(a, b);
  }

  /** Two values that normalise alike render alike. */
  lemma ShowOfNormalize(d: Decimal)
    requires d.units >= 0
    ensures Normalize(d).units >= 0
    ensures ShowMagnitude(Normalize(d)) == ShowMagnitude(d)
  {
    NormalizeIdempotent(d);
  }
}
