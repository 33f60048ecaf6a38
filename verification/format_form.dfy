/**
 The keystroke filters of the loan form (Frontend/src/utils/formatForm.js):
 character filters, Mexican-style thousands grouping of the integer part, and
 the clamp that applies only once the text is a number.
 */
module FormatForm {
  import opened Text
  import opened Numbers

  // ---------------------------------------------------------------------------
  // Character filters
  // ---------------------------------------------------------------------------

  /** `s.replace(/[^\d.]/g, "")`. */
  function OnlyDigitsAndDot(s: string): (r: string)
    ensures AllDigitsOrDots(r)
  {
    Filter(s, IsDigitOrDot)
  }

  /** `s.replace(/[^\d]/g, "")`. */
  function OnlyDigits(s: string): (r: string)
    ensures AllDigits(r)
  {
    Filter(s, IsDigit)
  }

  /** The digit-and-dot filter keeps every digit and dot, in order, drops
      everything else, distributes over concatenation and is idempotent. */
  lemma OnlyDigitsAndDotIsFilter(s: string, t: string)
    ensures forall c :: IsDigitOrDot(c) ==> Count(OnlyDigitsAndDot(s), c) == Count(s, c)
    ensures forall c :: !IsDigitOrDot(c) ==> c !in OnlyDigitsAndDot(s)
    ensures OnlyDigitsAndDot(s + t) == OnlyDigitsAndDot(s) + OnlyDigitsAndDot(t)
    ensures AllDigitsOrDots(s) ==> OnlyDigitsAndDot(s) == s
    ensures OnlyDigitsAndDot(OnlyDigitsAndDot(s)) == OnlyDigitsAndDot(s)
  {
    forall c | IsDigitOrDot(c)
      ensures Count(OnlyDigitsAndDot(s), c) == Count(s, c)
    {
      FilterCount(s, IsDigitOrDot, c);
    }
    FilterAppend(s, t, IsDigitOrDot);
    if AllDigitsOrDots(s) {
      FilterKeepsAll(s, IsDigitOrDot);
    }
    FilterIdempotent(s, IsDigitOrDot);
  }

  /** The digit filter keeps every digit, in order, drops everything else,
      distributes over concatenation and is idempotent. */
  lemma OnlyDigitsIsFilter(s: string, t: string)
    ensures forall c :: IsDigit(c) ==> Count(OnlyDigits(s), c) == Count(s, c)
    ensures forall c :: !IsDigit(c) ==> c !in OnlyDigits(s)
    ensures OnlyDigits(s + t) == OnlyDigits(s) + OnlyDigits(t)
    ensures AllDigits(s) ==> OnlyDigits(s) == s
    ensures OnlyDigits(OnlyDigits(s)) == OnlyDigits(s)
  {
    forall c | IsDigit(c)
      ensures Count(OnlyDigits(s), c) == Count(s, c)
    {
      FilterCount(s, IsDigit, c);
    }
    FilterAppend(s, t, IsDigit);
    if AllDigits(s) {
      FilterKeepsAll(s, IsDigit);
    }
    FilterIdempotent(s, IsDigit);
  }

  // ---------------------------------------------------------------------------
  // Thousands grouping: intPart.replace(/\B(?=(\d{3})+(?!\d))/g, ",")
  // ---------------------------------------------------------------------------

  /** Length of the run of digits that starts at position `p`. */
  function DigitRun(s: string, p: nat): (n: nat)
    requires p <= |s|
    ensures p + n <= |s|
    decreases |s| - p
  {
    if p < |s| && IsDigit(s[p]) then 1 + DigitRun(s, p + 1) else 0
  }

  /** The zero-width pattern `\B(?=(\d{3})+(?!\d))` matches at `p`: a digit run
      whose length is a positive multiple of three starts there, and the
      character before is a word character (so `p` is not a word boundary). */
  predicate CommaAt(s: string, p: nat)
    requires p <= |s|
  {
    0 < p && IsWordChar(s[p - 1]) && DigitRun(s, p) > 0 && DigitRun(s, p) % 3 == 0
  }

  /** The global replace from position `p` on: a comma at every match, every character copied. */
  function InsertCommasFrom(s: string, p: nat): string
    requires p <= |s|
    decreases |s| - p
  {
    if p == |s| then ""
    else (if CommaAt(s, p) then "," else "") + [s[p]] + InsertCommasFrom(s, p + 1)
  }

  function InsertCommas(s: string): string {
    InsertCommasFrom(s, 0)
  }

  /** Reference grouping, built from the right: the last three digits form a group. */
  function GroupDigits(s: string): string
    decreases |s|
  {
    if |s| <= 3 then s else GroupDigits(s[..|s| - 3]) + "," + s[|s| - 3..]
  }

  /** The integer part is grouped: comma-separated digit groups, the first of
      one to three digits and every later one of exactly three. */
  predicate WellGrouped(t: string) {
    var groups := Split(t, ',');
    && 1 <= |groups[0]| <= 3
    && (forall k :: 1 <= k < |groups| ==> |groups[k]| == 3)
    && (forall k :: 0 <= k < |groups| ==> AllDigits(groups[k]))
  }

  lemma {:induction false} DigitRunOfDigits(s: string, p: nat)
    requires AllDigits(s) && p <= |s|
    ensures DigitRun(s, p) == |s| - p
    decreases |s| - p
  {
    if p < |s| {
      DigitRunOfDigits(s, p + 1);
    }
  }

  /** Inserting commas only adds commas. */
  lemma {:induction false} InsertCommasRemove(s: string, p: nat)
    requires p <= |s| && ',' !in s
    ensures Remove(InsertCommasFrom(s, p), ',') == s[p..]
    decreases |s| - p
  {
    if p < |s| {
      InsertCommasRemove(s, p + 1);
      var c := if CommaAt(s, p) then "," else "";
      var rest := InsertCommasFrom(s, p + 1);
      assert InsertCommasFrom(s, p) == c + [s[p]] + rest;
      assert s[p] != ',' by {
        assert s[p] in s;
      }
      RemoveCommaBefore(c, s[p], rest);
      assert s[p..] == [s[p]] + s[p + 1..];
    }
  }

  /** Deleting commas from an optional comma, a non-comma character and a rest
      keeps the character and deletes the commas of the rest. */
  lemma RemoveCommaBefore(c: string, x: char, rest: string)
    requires c == "" || c == ","
    requires x != ','
    ensures Remove(c + [x] + rest, ',') == [x] + Remove(rest, ',')
  {
    FilterAppend(c + [x], rest, NotChar(','));
    FilterAppend(c, [x], NotChar(','));
    assert Filter(c, NotChar(',')) == "";
    assert Filter([x], NotChar(',')) == [x];
  }

  /** Every character of the output other than a comma comes from the input. */
  lemma {:induction false} InsertCommasChars(s: string, p: nat, c: char)
    requires p <= |s| && c != ',' && c !in s[p..]
    ensures c !in InsertCommasFrom(s, p)
    decreases |s| - p
  {
    if p < |s| {
      assert s[p] in s[p..];
      assert s[p + 1..] == s[p..][1..];
      InsertCommasChars(s, p + 1, c);
    }
  }

  /** Near the start of an all-digit string (or in a string of at most three
      digits) no comma is inserted. */
  lemma {:induction false} NoCommasInTail(s: string, p: nat)
    requires AllDigits(s) && p <= |s|
    requires p == 0 ==> |s| <= 3
    requires p > 0 ==> |s| - p <= 2
    ensures InsertCommasFrom(s, p) == s[p..]
    decreases |s| - p
  {
    if p < |s| {
      DigitRunOfDigits(s, p);
      assert !CommaAt(s, p);
      NoCommasInTail(s, p + 1);
      assert s[p..] == [s[p]] + s[p + 1..];
    }
  }

  /** Splitting off the last three digits: the matches before them are the
      matches of the shorter string, and one more sits just before them. */
  lemma InsertCommasLastGroup(s: string, p: nat)
    requires AllDigits(s) && |s| >= 4 && p <= |s| - 3
    ensures InsertCommasFrom(s, p) == InsertCommasFrom(s[..|s| - 3], p) + "," + s[|s| - 3..]
  {
    LastGroupFrom(s, p);
  }

  /** From `p` on, the replace on `s` is the replace on `s` without its last
      three digits, a comma, and those digits. */
  predicate LastGroupSplits(s: string, p: nat)
    requires |s| >= 3 && p <= |s| - 3
  {
    InsertCommasFrom(s, p) == InsertCommasFrom(s[..|s| - 3], p) + "," + s[|s| - 3..]
  }

  lemma {:induction false} LastGroupFrom(s: string, p: nat)
    requires AllDigits(s) && |s| >= 4 && p <= |s| - 3
    ensures LastGroupSplits(s, p)
    decreases |s| - p
  {
    if p == |s| - 3 {
      LastGroupStart(s);
    } else {
      LastGroupFrom(s, p + 1);
      LastGroupStep(s, p);
    }
  }

  /** The claim at the start of the last three digits. */
  lemma LastGroupStart(s: string)
    requires AllDigits(s) && |s| >= 4
    ensures LastGroupSplits(s, |s| - 3)
  {
    CommaBeforeLastGroup(s);
    var a := s[..|s| - 3];
    assert InsertCommasFrom(a, |a|) == "";
    assert "" + "," + s[|s| - 3..] == "," + s[|s| - 3..];
  }

  /** The claim at `p` follows from the claim at `p + 1`. */
  lemma LastGroupStep(s: string, p: nat)
    requires AllDigits(s) && |s| >= 4 && p < |s| - 3
    requires LastGroupSplits(s, p + 1)
    ensures LastGroupSplits(s, p)
  {
    var a, last := s[..|s| - 3], s[|s| - 3..];
    CommaAtShorter(s, p);
    InsertCommasStep(s, p);
    InsertCommasStep(a, p);
    assert a[p] == s[p];
    var head, rest := (if CommaAt(s, p) then "," else "") + [s[p]], InsertCommasFrom(a, p + 1);
    assert InsertCommasFrom(s, p) == head + (rest + "," + last);
    assert InsertCommasFrom(a, p) == head + rest;
    assert head + (rest + "," + last) == head + rest + "," + last;
  }

  /** Exactly three digits from the end the pattern matches once, and never after. */
  lemma CommaBeforeLastGroup(s: string)
    requires AllDigits(s) && |s| >= 4
    ensures InsertCommasFrom(s, |s| - 3) == "," + s[|s| - 3..]
  {
    var p := |s| - 3;
    CommaAtLastGroup(s);
    NoCommasInTail(s, p + 1);
    InsertCommasStep(s, p);
    var digit, tail := [s[p]], s[p + 1..];
    assert InsertCommasFrom(s, p) == "," + digit + tail;
    assert digit + tail == s[p..];
    assert "," + digit + tail == "," + (digit + tail);
  }

  /** The pattern matches three digits from the end of a digit string. */
  lemma CommaAtLastGroup(s: string)
    requires AllDigits(s) && |s| >= 4
    ensures CommaAt(s, |s| - 3)
  {
    assert IsDigit(s[|s| - 4]);
    DigitRunOfDigits(s, |s| - 3);
  }

  /** One step of the replace: a comma if the pattern matches here, then the character. */
  lemma InsertCommasStep(s: string, p: nat)
    requires p < |s|
    ensures InsertCommasFrom(s, p) == (if CommaAt(s, p) then "," else "") + [s[p]] + InsertCommasFrom(s, p + 1)
  {
  }

  /** Before the last three digits, dropping them does not change where the pattern matches. */
  lemma CommaAtShorter(s: string, p: nat)
    requires AllDigits(s) && |s| >= 4 && p < |s| - 3
    ensures CommaAt(s, p) == CommaAt(s[..|s| - 3], p)
  {
    var a := s[..|s| - 3];
    DigitRunOfDigits(s, p);
    DigitRunOfDigits(a, p);
    assert p > 0 ==> a[p - 1] == s[p - 1];
  }

  /** The regular-expression replace groups exactly as the reference grouping does. */
  lemma {:induction false} InsertCommasIsGrouping(s: string)
    requires AllDigits(s)
    ensures InsertCommas(s) == GroupDigits(s)
    decreases |s|
  {
    if |s| <= 3 {
      NoCommasInTail(s, 0);
    } else {
      InsertCommasLastGroup(s, 0);
      InsertCommasIsGrouping(s[..|s| - 3]);
    }
  }

  lemma DigitsHaveNoComma(s: string)
    requires AllDigits(s)
    ensures ',' !in s
  {
  }

  /** Every grouping of a non-empty digit string is well formed. */
  lemma {:induction false} GroupDigitsWellGrouped(s: string)
    requires AllDigits(s) && |s| >= 1
    ensures WellGrouped(GroupDigits(s))
    decreases |s|
  {
    if |s| <= 3 {
      DigitsHaveNoComma(s);
      SplitNoSep(s, ',');
    } else {
      var a := s[..|s| - 3];
      var b := s[|s| - 3..];
      GroupDigitsWellGrouped(a);
      DigitsHaveNoComma(b);
      SplitNoSep(b, ',');
      SplitAround(GroupDigits(a), b, ',');
      var ga := Split(GroupDigits(a), ',');
      var g := Split(GroupDigits(s), ',');
      assert g == ga + [b];
      assert forall k :: 0 <= k < |ga| ==> g[k] == ga[k];
    }
  }

  /** `formatThousandsMX(s)`: group the part before the first dot; copy the
      part between the first and a second dot, if any. */
  function FormatThousandsMX(s: string): (r: string)
    ensures s == "" ==> r == ""
  {
    if s == "" then ""
    else
      var parts := Split(s, '.');
      var formattedInt := InsertCommas(parts[0]);
      if |parts| >= 2 then formattedInt + "." + parts[1] else formattedInt
  }

  /** A digit/dot string with at most one dot splits into digit-only pieces. */
  lemma NumeralPieces(s: string)
    requires AllDigitsOrDots(s) && Count(s, '.') <= 1
    ensures |Split(s, '.')| <= 2
    ensures forall k :: 0 <= k < |Split(s, '.')| ==> AllDigits(Split(s, '.')[k])
    ensures |Split(s, '.')| == 1 ==> s == Split(s, '.')[0]
    ensures |Split(s, '.')| == 2 ==> s == Split(s, '.')[0] + "." + Split(s, '.')[1]
  {
    SplitKeepsClass(s, '.', IsDigit);
    JoinSplit(s, '.');
    var parts := Split(s, '.');
    forall k | 0 <= k < |parts|
      ensures AllDigits(parts[k])
    {
      assert AllOf(parts[k], IsDigit);
    }
    if |parts| == 2 {
      assert Join(parts[1..], '.') == parts[1];
    }
  }

  /** Deleting the commas undoes the formatting. */
  lemma FormatThousandsRoundTrip(s: string)
    requires AllDigitsOrDots(s) && Count(s, '.') <= 1
    ensures Remove(FormatThousandsMX(s), ',') == s
  {
    if s != "" {
      NumeralPieces(s);
      var parts := Split(s, '.');
      var a := parts[0];
      DigitsHaveNoComma(a);
      InsertCommasRemove(a, 0);
      assert a[0..] == a;
      if |parts| == 2 {
        var b := parts[1];
        DigitsHaveNoComma(b);
        RemoveAroundDot(InsertCommas(a), b);
      }
    }
  }

  lemma RemoveAroundDot(x: string, b: string)
    requires ',' !in b
    ensures Remove(x + "." + b, ',') == Remove(x, ',') + "." + b
  {
    FilterKeepsAll(b, NotChar(','));
    FilterAppend(x + ".", b, NotChar(','));
    FilterAppend(x, ".", NotChar(','));
  }

  /** The integer part of the output is grouped and maps back to the input's
      integer part; the fractional part is copied unchanged. */
  lemma FormatThousandsGroups(s: string)
    requires AllDigitsOrDots(s) && Count(s, '.') <= 1
    ensures |Split(FormatThousandsMX(s), '.')| == |Split(s, '.')|
    ensures |Split(s, '.')[0]| >= 1 ==> WellGrouped(Split(FormatThousandsMX(s), '.')[0])
    ensures Remove(Split(FormatThousandsMX(s), '.')[0], ',') == Split(s, '.')[0]
    ensures Split(FormatThousandsMX(s), '.')[1..] == Split(s, '.')[1..]
  {
    NumeralPieces(s);
    var parts := Split(s, '.');
    var grouped := InsertCommas(parts[0]);
    if |parts[0]| >= 1 {
      GroupedPiece(parts[0]);
    } else {
      assert grouped == "";
      assert Split(grouped, '.') == [grouped];
    }
    if |parts| == 2 {
      DigitsHaveNoDot(parts[1]);
      SplitNoSep(parts[1], '.');
      SplitAround(grouped, parts[1], '.');
    }
  }

  /** The grouped integer part is well grouped, loses its commas back to the
      digits, and holds no dot. */
  lemma GroupedPiece(a: string)
    requires AllDigits(a) && |a| >= 1
    ensures WellGrouped(InsertCommas(a))
    ensures Remove(InsertCommas(a), ',') == a
    ensures Split(InsertCommas(a), '.') == [InsertCommas(a)]
  {
    InsertCommasIsGrouping(a);
    GroupDigitsWellGrouped(a);
    DigitsHaveNoComma(a);
    InsertCommasRemove(a, 0);
    DigitsHaveNoDot(a);
    assert a[0..] == a;
    InsertCommasChars(a, 0, '.');
    SplitNoSep(InsertCommas(a), '.');
  }

  lemma GroupingExample()
    ensures GroupDigits("1234567") == "1,234,567"
  {
    var s := "1234567";
    assert s[..4] == "1234" && s[4..] == "567";
    assert "1234"[..1] == "1" && "1234"[1..] == "234";
  }

  /** The formatted text in terms of the reference grouping. */
  lemma FormatThousandsPieces(s: string, a: string, b: string)
    requires s != "" && AllDigits(a)
    requires Split(s, '.') == [a] || Split(s, '.') == [a, b]
    ensures Split(s, '.') == [a] ==> FormatThousandsMX(s) == GroupDigits(a)
    ensures Split(s, '.') == [a, b] ==> FormatThousandsMX(s) == GroupDigits(a) + "." + b
  {
    InsertCommasIsGrouping(a);
  }

  lemma FormatThousandsWholeExample()
    ensures FormatThousandsMX("1234567") == "1,234,567"
  {
    WholeNumeral("1234567");
    FormatThousandsPieces("1234567", "1234567", "");
    GroupingExample();
  }

  /** A digit string, a dot and a fraction: the fraction follows the grouped integer part. */
  lemma FormatThousandsFraction(a: string, b: string)
    requires AllDigits(a) && AllDigits(b)
    ensures FormatThousandsMX(a + ['.'] + b) == GroupDigits(a) + "." + b
  {
    SplitOneDot(a, b);
    FormatThousandsPieces(a + ['.'] + b, a, b);
  }

  lemma FormatThousandsFractionExample()
    ensures FormatThousandsMX("1234567.5") == "1,234,567.5"
  {
    FractionExamplePieces();
    GroupingExample();
  }

  lemma FractionExamplePieces()
    ensures FormatThousandsMX("1234567.5") == GroupDigits("1234567") + ".5"
  {
    var a, b := "1234567", "5";
    assert AllDigits(a) && AllDigits(b);
    FormatThousandsFraction(a, b);
    assert a + ['.'] + b == "1234567.5";
    assert GroupDigits(a) + "." + b == GroupDigits(a) + ("." + b);
    assert "." + b == ".5";
  }

  // ---------------------------------------------------------------------------
  // clampNumberString
  // ---------------------------------------------------------------------------

  /** `Math.min(max, Math.max(min, n))`. */
  function ClampDecimal(d: Decimal, lo: nat, hi: nat): (c: Decimal)
    requires d.units >= 0
    ensures c.units >= 0
    ensures lo <= hi ==> AtLeast(c, lo) && AtMost(c, hi)
    ensures AtLeast(d, lo) && AtMost(d, hi) ==> c == d
    ensures !AtLeast(d, lo) ==> c == Decimal(if lo <= hi then lo else hi, 0)
    ensures AtLeast(d, lo) && !AtMost(d, hi) ==> c == Decimal(hi, 0)
  {
    var t := if !AtLeast(d, lo) then Decimal(lo, 0) else d;
    if !AtMost(t, hi) then Decimal(hi, 0) else t
  }

  /** `clampNumberString(s, min, max)`: `""` and `"."` pass through, a non-number
      becomes `""`, a number is clamped and rendered with `String`. */
  function ClampNumberString(s: string, lo: nat, hi: nat): (r: string)
    ensures s == "" || s == "." ==> r == s
    ensures s != "" && s != "." && ParseNumber(s).NaN? ==> r == ""
  {
    if s == "" || s == "." then s
    else
      match ParseNumber(s)
      case NaN => ""
      case Finite(d) => ShowMagnitude(ClampDecimal(d, lo, hi))
  }

  /** A numeric input comes out as the shortest rendering of a value in
      `[lo, hi]`; a value already in range keeps its value. */
  lemma ClampNumberStringValue(s: string, lo: nat, hi: nat)
    requires s != "" && s != "." && ParseNumber(s).Finite?
    requires lo <= hi
    ensures ParseNumber(ClampNumberString(s, lo, hi)).Finite?
    ensures AtLeast(ParseNumber(ClampNumberString(s, lo, hi)).value, lo)
    ensures AtMost(ParseNumber(ClampNumberString(s, lo, hi)).value, hi)
    ensures ShowMagnitude(ParseNumber(ClampNumberString(s, lo, hi)).value) == ClampNumberString(s, lo, hi)
    ensures AtLeast(ParseNumber(s).value, lo) && AtMost(ParseNumber(s).value, hi) ==>
              ParseNumber(ClampNumberString(s, lo, hi)) == Finite(Normalize(ParseNumber(s).value))
    ensures !AtLeast(ParseNumber(s).value, lo) ==>
              ParseNumber(ClampNumberString(s, lo, hi)) == Finite(Decimal(lo, 0))
    ensures !AtMost(ParseNumber(s).value, hi) ==>
              ParseNumber(ClampNumberString(s, lo, hi)) == Finite(Decimal(hi, 0))
  {
    var d := ParseNumber(s).value;
    var c := ClampDecimal(d, lo, hi);
    ParseShow(c);
    NormalizeCompare(c, lo);
    NormalizeCompare(c, hi);
    ShowOfNormalize(c);
    BoundsOrdered(d, lo, hi);
    assert Normalize(Decimal(lo, 0)) == Decimal(lo, 0);
    assert Normalize(Decimal(hi, 0)) == Decimal(hi, 0);
  }

  /** A value above the upper bound is above the lower bound too. */
  lemma BoundsOrdered(d: Decimal, lo: nat, hi: nat)
    requires lo <= hi
    ensures !AtMost(d, hi) ==> AtLeast(d, lo)
  {
    var p := Pow10(d.scale);
    assert lo * p <= hi * p;
  }

  /** The numeric branch of the clamp, as a rendering of the clamped value. */
  lemma ClampNumeric(s: string, lo: nat, hi: nat, d: Decimal)
    requires s != "" && s != "." && ParseNumber(s) == Finite(d)
    ensures ClampNumberString(s, lo, hi) == ShowMagnitude(ClampDecimal(d, lo, hi))
  {
  }

  lemma ParseExample()
    ensures ParseNumber("150") == Finite(Decimal(150, 0))
  {
    WholeNumeral("150");
    assert "150"[..2] == "15" && "15"[..1] == "1";
    assert DigitsValue("150") == 150;
    assert "150" + "" == "150";
  }

  lemma ShowExample()
    ensures ShowMagnitude(Decimal(100, 0)) == "100"
  {
    assert NatDigits(100) == "100";
  }

  lemma ClampAboveExample()
    ensures ClampNumberString("150", 0, 100) == "100"
  {
    ParseExample();
    ClampNumeric("150", 0, 100, Decimal(150, 0));
    assert ClampDecimal(Decimal(150, 0), 0, 100) == Decimal(100, 0);
    ShowExample();
  }

  lemma ClampLeadingZerosExample()
    ensures ClampNumberString("007", 0, 100) == "7"
  {
    LeadingZerosParse();
    ClampNumeric("007", 0, 100, Decimal(7, 0));
    assert ClampDecimal(Decimal(7, 0), 0, 100) == Decimal(7, 0);
    assert NatDigits(7) == "7";
  }

  lemma LeadingZerosParse()
    ensures ParseNumber("007") == Finite(Decimal(7, 0))
  {
    var a := "007";
    assert AllDigits(a);
    ParseWhole(a);
    assert a[..2] == "00" && "00"[..1] == "0";
    assert DigitsValue(a) == 7;
  }

  lemma ClampTwoDotsExample()
    ensures ClampNumberString("1.2.3", 0, 100) == ""
  {
    assert "1.2.3" == "1" + ['.'] + "2.3";
    assert "2.3" == "2" + ['.'] + "3";
    CountAppend("1" + ['.'], "2.3", '.');
    CountAppend("2" + ['.'], "3", '.');
  }
}
