/**
 The loan form of Frontend/src/App.jsx: the defaults restored from storage,
 the three field handlers that normalise each keystroke, and the state
 transitions of a submit (`{form, result, loading, error}`).
 */
module App {
  import opened Wrappers
  import opened Text
  import opened Numbers
  import opened Js
  import opened FormatForm
  import opened Api

  // ---------------------------------------------------------------------------
  // Form and persisted defaults
  // ---------------------------------------------------------------------------

  /** The three text fields, exactly as displayed. */
  datatype Form = Form(amount: string, rate: string, months: string)

  const DefaultAmount := "50000"
  const DefaultRate := "24"
  const DefaultMonths := "12"
  const DefaultForm := Form(DefaultAmount, DefaultRate, DefaultMonths)

  /** `String(parsed.key ?? fallback)`. */
  function StoredField(parsed: JsValue, key: string, fallback: string): string {
    ToText(Coalesce(Get(parsed, key), Str(fallback)))
  }

  /** `loadFormDefaults`: `stored` is what storage holds under the form's key,
      `parse` stands for `JSON.parse` (`None` when it throws). Reading a field of
      a `null` document throws too, and every throw yields the defaults. */
  function LoadFormDefaults(stored: Option<string>, parse: string -> Option<JsValue>): (f: Form)
    ensures stored.None? || stored == Some("") ==> f == DefaultForm
    ensures stored.Some? && stored.value != "" && parse(stored.value).None? ==> f == DefaultForm
    ensures stored.Some? && stored.value != "" && parse(stored.value).Some? && Nullish(parse(stored.value).value) ==>
              f == DefaultForm
  {
    if stored.None? || stored.value == "" then DefaultForm
    else
      match parse(stored.value)
      case None => DefaultForm
      case Some(parsed) =>
        if Nullish(parsed) then DefaultForm
        else Form(StoredField(parsed, "amount", DefaultAmount),
                  StoredField(parsed, "rate", DefaultRate),
                  StoredField(parsed, "months", DefaultMonths))
  }

  /** The document `JSON.stringify(form)` writes, as `JSON.parse` reads it back. */
  function FormJson(f: Form): JsValue {
    Obj(map["amount" := Str(f.amount), "rate" := Str(f.rate), "months" := Str(f.months)])
  }

  /** What the persistence effect saves is what the next load restores. */
  lemma LoadSavedForm(f: Form, stored: Option<string>, parse: string -> Option<JsValue>)
    requires stored.Some? && stored.value != ""
    requires parse(stored.value) == Some(FormJson(f))
    ensures LoadFormDefaults(stored, parse) == f
  {
  }

  /** In a stored object each field falls back to its own default when it is
      missing or `null`; the other fields are kept. */
  lemma LoadFieldFallback(stored: Option<string>, parse: string -> Option<JsValue>, fields: map<string, JsValue>)
    requires stored.Some? && stored.value != ""
    requires parse(stored.value) == Some(Obj(fields))
    ensures LoadFormDefaults(stored, parse).amount ==
              if "amount" in fields && !Nullish(fields["amount"]) then ToText(fields["amount"]) else DefaultAmount
    ensures LoadFormDefaults(stored, parse).rate ==
              if "rate" in fields && !Nullish(fields["rate"]) then ToText(fields["rate"]) else DefaultRate
    ensures LoadFormDefaults(stored, parse).months ==
              if "months" in fields && !Nullish(fields["months"]) then ToText(fields["months"]) else DefaultMonths
  {
  }

  // ---------------------------------------------------------------------------
  // Amount handler
  // ---------------------------------------------------------------------------

  /** More than one dot: the first dot stays and the pieces after it are run together. */
  function KeepFirstDot(raw: string): (r: string)
    ensures Count(raw, '.') <= 1 ==> r == raw
  {
    var parts := Split(raw, '.');
    if |parts| > 2 then parts[0] + "." + Concat(parts[1..]) else raw
  }

  /** Without a dot there is nothing to do. */
  lemma KeepFirstDotNone(raw: string)
    requires '.' !in raw
    ensures KeepFirstDot(raw) == raw
  {
    SplitNoSep(raw, '.');
  }

  /** With the first dot at `i`, everything up to it is kept and every later dot is deleted. */
  lemma KeepFirstDotAt(raw: string, i: nat)
    requires i < |raw| && raw[i] == '.' && '.' !in raw[..i]
    ensures KeepFirstDot(raw) == raw[..i + 1] + Remove(raw[i + 1..], '.')
  {
    var head, tail := raw[..i], raw[i + 1..];
    assert raw == head + ['.'] + tail;
    assert raw[..i + 1] == head + ['.'];
    SplitAround(head, tail, '.');
    SplitNoSep(head, '.');
    var parts := Split(raw, '.');
    assert parts[1..] == Split(tail, '.');
    JoinSplit(tail, '.');
    SplitPiecesLackSep(tail, '.');
    RemoveJoin(Split(tail, '.'), '.');
    if |parts| <= 2 {
      assert Split(tail, '.') == [tail];
      assert Concat([tail]) == tail + "";
    }
  }

  /** The first dot of a string that has one. */
  lemma FirstDot(raw: string) returns (i: nat)
    requires '.' in raw
    ensures i < |raw| && raw[i] == '.' && '.' !in raw[..i]
  {
    CountZero(raw, '.');
    SplitFirst(raw, '.');
    i := |Split(raw, '.')[0]|;
  }

  /** The dot rule leaves at most one dot, keeps one exactly when there was
      one, and keeps every other character in order. */
  lemma KeepFirstDotShape(raw: string)
    ensures Count(KeepFirstDot(raw), '.') <= 1
    ensures Count(KeepFirstDot(raw), '.') == 1 <==> '.' in raw
    ensures Remove(KeepFirstDot(raw), '.') == Remove(raw, '.')
    ensures AllDigitsOrDots(raw) ==> AllDigitsOrDots(KeepFirstDot(raw))
  {
    if '.' !in raw {
      KeepFirstDotNone(raw);
      CountZero(raw, '.');
    } else {
      var i := FirstDot(raw);
      KeepFirstDotAt(raw, i);
      var head, tail := raw[..i], raw[i + 1..];
      var rest := Remove(tail, '.');
      var r := KeepFirstDot(raw);
      assert raw == head + ['.'] + tail;
      assert r == head + ['.'] + rest;
      CountZero(head, '.');
      CountZero(rest, '.');
      CountAppend(head + ['.'], rest, '.');
      CountAppend(head, ['.'], '.');
      assert Count(['.'], '.') == 1;
      FilterKeepsAll(head, NotChar('.'));
      FilterIdempotent(tail, NotChar('.'));
      FilterAppend(head + ['.'], rest, NotChar('.'));
      FilterAppend(head, ['.'], NotChar('.'));
      FilterAppend(head + ['.'], tail, NotChar('.'));
      assert Filter(['.'], NotChar('.')) == "";
      if AllDigitsOrDots(raw) {
        KeepFirstDotChars(raw, i);
      }
    }
  }

  /** Keeping the first dot only deletes characters, so digits and dots stay digits and dots. */
  lemma KeepFirstDotChars(raw: string, i: nat)
    requires AllDigitsOrDots(raw)
    requires i < |raw| && raw[i] == '.' && '.' !in raw[..i]
    ensures AllDigitsOrDots(KeepFirstDot(raw))
  {
    KeepFirstDotAt(raw, i);
    var tail := raw[i + 1..];
    var rest := Remove(tail, '.');
    var r := KeepFirstDot(raw);
    FilterFrom(tail, NotChar('.'));
    forall k | 0 <= k < |r|
      ensures IsDigitOrDot(r[k])
    {
      if k <= i {
        assert r[k] == raw[k];
      } else {
        assert r[k] == rest[k - i - 1];
        assert rest[k - i - 1] in tail;
      }
    }
  }


  /** `handleAmountChange`: digits and dots only, one dot, regrouped by thousands. */
  function NormalizeAmount(input: string): (r: string)
    ensures OnlyDigitsAndDot(input) == "" ==> r == ""
  {
    FormatThousandsMX(KeepFirstDot(OnlyDigitsAndDot(input)))
  }

  /** Deleting the dots of the filtered input leaves exactly its digits. */
  lemma DigitsOfFiltered(input: string)
    ensures Remove(OnlyDigitsAndDot(input), '.') == OnlyDigits(input)
  {
    FilterCompose(input, IsDigitOrDot, NotChar('.'), IsDigit);
  }

  /** The amount field holds digits, commas and at most one dot; without the
      commas it is the dot-normalised input; and it keeps every digit typed, in order. */
  lemma NormalizeAmountShape(input: string)
    ensures forall k :: 0 <= k < |NormalizeAmount(input)| ==>
              IsDigitOrDot(NormalizeAmount(input)[k]) || NormalizeAmount(input)[k] == ','
    ensures Count(NormalizeAmount(input), '.') <= 1
    ensures Remove(NormalizeAmount(input), ',') == KeepFirstDot(OnlyDigitsAndDot(input))
    ensures Remove(Remove(NormalizeAmount(input), ','), '.') == OnlyDigits(input)
  {
    var raw := OnlyDigitsAndDot(input);
    var kept := KeepFirstDot(raw);
    var r := NormalizeAmount(input);
    KeepFirstDotShape(raw);
    FormatThousandsRoundTrip(kept);
    DigitsOfFiltered(input);
    FilterCount(r, NotChar(','), '.');
    forall k | 0 <= k < |r|
      ensures IsDigitOrDot(r[k]) || r[k] == ','
    {
      var c := r[k];
      if c != ',' {
        CountZero(r, c);
        FilterCount(r, NotChar(','), c);
        CountZero(kept, c);
      }
    }
  }

  /** A second pass over the amount field changes nothing. */
  lemma NormalizeAmountIdempotent(input: string)
    ensures NormalizeAmount(NormalizeAmount(input)) == NormalizeAmount(input)
  {
    var r := NormalizeAmount(input);
    var kept := KeepFirstDot(OnlyDigitsAndDot(input));
    NormalizeAmountShape(input);
    KeepFirstDotShape(OnlyDigitsAndDot(input));
    FilterAgree(r, IsDigitOrDot, NotChar(','));
    assert OnlyDigitsAndDot(r) == kept;
    assert |Split(kept, '.')| <= 2;
  }

  // ---------------------------------------------------------------------------
  // Rate handler
  // ---------------------------------------------------------------------------

  /** `const [i, d] = raw.split(".")`: the first piece, and at most two digits
      of the second when there is one; any third piece is dropped. */
  function TruncateRate(raw: string): (r: string)
    ensures '.' !in raw ==> r == raw
  {
    var parts := Split(raw, '.');
    assert '.' !in raw ==> parts == [raw] by {
      if '.' !in raw {
        SplitNoSep(raw, '.');
      }
    }
    if |parts| >= 2 then parts[0] + "." + Prefix(parts[1], 2) else parts[0]
  }

  /** The truncation only ever cuts the tail of its input: it is a prefix. */
  lemma TruncateRateIsPrefix(raw: string)
    ensures |TruncateRate(raw)| <= |raw| && raw[..|TruncateRate(raw)|] == TruncateRate(raw)
    ensures TruncateRate(raw) == "" <==> raw == ""
  {
    var parts := Split(raw, '.');
    SplitFirst(raw, '.');
    var i := |parts[0]|;
    if |parts| >= 2 {
      SecondPiece(raw);
      var tail := raw[i + 1..];
      SplitFirst(tail, '.');
      var q := Prefix(parts[1], 2);
      assert tail[..|q|] == q;
      assert raw[..i + 1 + |q|] == raw[..i] + ['.'] + q;
    } else {
      JoinSplit(raw, '.');
    }
  }

  /** The second piece of a split is the first piece of what follows the first separator. */
  lemma SecondPiece(raw: string)
    requires |Split(raw, '.')| >= 2
    ensures var i := |Split(raw, '.')[0]|;
            i < |raw| && raw[i] == '.' && Split(raw, '.')[1] == Split(raw[i + 1..], '.')[0]
  {
    var parts := Split(raw, '.');
    SplitFirst(raw, '.');
    var i := |parts[0]|;
    var head, tail := raw[..i], raw[i + 1..];
    assert raw == head + ['.'] + tail;
    SplitAround(head, tail, '.');
    SplitNoSep(head, '.');
  }

  /** The truncated rate is empty, a lone dot, or a numeral with at most two decimals. */
  lemma TruncateRateShape(raw: string)
    requires AllDigitsOrDots(raw)
    ensures var t := TruncateRate(raw);
            t == "" || t == "." || (IsNumeral(t) && ParseNumber(t).value.scale <= 2)
  {
    var parts := Split(raw, '.');
    var t := TruncateRate(raw);
    SplitKeepsClass(raw, '.', IsDigit);
    assert AllOf(parts[0], IsDigit);
    if |parts| >= 2 {
      assert AllOf(parts[1], IsDigit);
      var q := Prefix(parts[1], 2);
      assert AllDigits(q);
      SplitOneDot(parts[0], q);
      if t != "." {
        if |parts[0]| > 0 {
          assert IsDigit(t[0]);
        } else {
          assert |q| > 0 && IsDigit(q[0]) && t[1] == q[0];
        }
      }
    } else if t != "" {
      WholeNumeral(t);
    }
  }

  /** `handleRateChange`: digits and dots only, at most two decimals, clamped to [0, 100]. */
  function NormalizeRate(input: string): (r: string)
    ensures OnlyDigitsAndDot(input) == "" ==> r == ""
  {
    ClampNumberString(TruncateRate(OnlyDigitsAndDot(input)), 0, 100)
  }

  /** The rate field is empty, a lone dot, or the shortest rendering of a
      number in [0, 100] with at most two decimals; it is empty exactly when
      no digit or dot was typed. */
  lemma NormalizeRateShape(input: string)
    ensures var r := NormalizeRate(input);
            || r == ""
            || r == "."
            || (&& ParseNumber(r).Finite?
                && AtLeast(ParseNumber(r).value, 0)
                && AtMost(ParseNumber(r).value, 100)
                && ParseNumber(r).value.scale <= 2
                && ShowMagnitude(ParseNumber(r).value) == r)
    ensures NormalizeRate(input) == "" <==> OnlyDigitsAndDot(input) == ""
  {
    var raw := OnlyDigitsAndDot(input);
    var t := TruncateRate(raw);
    TruncateRateShape(raw);
    TruncateRateIsPrefix(raw);
    if t != "" && t != "." {
      ClampNumberStringValue(t, 0, 100);
      var d := ParseNumber(t).value;
      var c := ClampDecimal(d, 0, 100);
      ParseShow(c);
      ShowShape(c);
      assert ClampNumberString(t, 0, 100) == ShowMagnitude(c);
    }
  }

  /** A second pass over the rate field changes nothing. */
  lemma NormalizeRateIdempotent(input: string)
    ensures NormalizeRate(NormalizeRate(input)) == NormalizeRate(input)
  {
    var r := NormalizeRate(input);
    NormalizeRateShape(input);
    if r == "" {
    } else if r == "." {
      assert Split(".", '.') == ["", ""];
      FilterKeepsAll(".", IsDigitOrDot);
    } else {
      RenderedRateIsFixed(ParseNumber(r).value);
    }
  }

  /** A rendered rate in [0, 100] with at most two decimals survives the rate handler unchanged. */
  lemma RenderedRateIsFixed(v: Decimal)
    requires v.units >= 0 && AtLeast(v, 0) && AtMost(v, 100) && v.scale <= 2
    ensures NormalizeRate(ShowMagnitude(v)) == ShowMagnitude(v)
  {
    var r := ShowMagnitude(v);
    ShowShape(v);
    Normalize2(v);
    FilterKeepsAll(r, IsDigitOrDot);
    assert OnlyDigitsAndDot(r) == r;
    ShortRateKept(r);
    RenderingClampsToItself(v);
  }

  lemma Normalize2(v: Decimal)
    requires v.scale <= 2
    ensures Normalize(v).scale <= 2
  {
  }

  /** A numeral with at most two decimals is not truncated. */
  lemma ShortRateKept(r: string)
    requires IsNumeral(r)
    requires |Split(r, '.')| == 2 ==> |Split(r, '.')[1]| <= 2
    ensures TruncateRate(r) == r
  {
    NumeralPieces(r);
  }

  /** Clamping the rendering of an in-range value to [0, 100] gives the rendering back. */
  lemma RenderingClampsToItself(v: Decimal)
    requires v.units >= 0 && AtLeast(v, 0) && AtMost(v, 100)
    ensures ClampNumberString(ShowMagnitude(v), 0, 100) == ShowMagnitude(v)
  {
    var r := ShowMagnitude(v);
    ShowShape(v);
    ParseShow(v);
    NormalizeCompare(v, 0);
    NormalizeCompare(v, 100);
    ClampNumeric(r, 0, 100, Normalize(v));
    ShowOfNormalize(v);
  }

  /** Typed as digits, a dot and digits, the rate is clamped after keeping two decimals. */
  lemma NormalizeRateOfFraction(a: string, b: string)
    requires AllDigits(a) && AllDigits(b)
    ensures NormalizeRate(a + ['.'] + b) == ClampNumberString(a + ['.'] + Prefix(b, 2), 0, 100)
  {
    SplitOneDot(a, b);
    FilterKeepsAll(a + ['.'] + b, IsDigitOrDot);
  }

  lemma TruncationStep()
    ensures NormalizeRate("12.3456") == ClampNumberString("12.34", 0, 100)
  {
    assert "12" + ['.'] + "3456" == "12.3456";
    assert "12" + ['.'] + "34" == "12.34";
    assert Prefix("3456", 2) == "34";
    NormalizeRateOfFraction("12", "3456");
  }

  lemma ParseTwelvePointThirtyFour()
    ensures ParseNumber("12.34") == Finite(Decimal(1234, 2))
  {
    assert "12" + ['.'] + "34" == "12.34";
    assert "12" + "34" == "1234";
    assert "1234"[..3] == "123" && "123"[..2] == "12" && "12"[..1] == "1";
    assert DigitsValue("1234") == 1234;
    ParseFraction("12", "34");
  }

  lemma PadExample()
    ensures PadDigits(34, 2) == "34"
  {
    assert Pow10(1) == 10 && Pow10(2) == 100;
    assert DigitChar(3) == '3' && DigitChar(4) == '4';
    assert PadDigits(0, 0) == "";
    assert PadDigits(3, 1) == PadDigits(0, 0) + [DigitChar(3)];
    assert PadDigits(34, 2) == PadDigits(3, 1) + [DigitChar(4)];
  }

  lemma ShowTwelvePointThirtyFour()
    ensures ShowMagnitude(Decimal(1234, 2)) == "12.34"
  {
    assert "12" + ['.'] + "34" == "12.34";
    WholePartExample();
    PadExample();
    ShowTwelvePointThirtyFourLayout();
  }

  lemma WholePartExample()
    ensures NatDigits(12) == "12"
  {
  }

  lemma ShowTwelvePointThirtyFourLayout()
    ensures ShowMagnitude(Decimal(1234, 2)) == NatDigits(12) + ['.'] + PadDigits(34, 2)
  {
    assert Normalize(Decimal(1234, 2)) == Decimal(1234, 2);
    assert Pow10(2) == 100;
    assert 1234 / 100 == 12 && 1234 % 100 == 34;
    ShowFraction(Decimal(1234, 2), 12, 34, 2);
  }

  lemma RateTruncatedExample()
    ensures NormalizeRate("12.3456") == "12.34"
  {
    TruncationStep();
    ParseTwelvePointThirtyFour();
    ClampNumeric("12.34", 0, 100, Decimal(1234, 2));
    assert ClampDecimal(Decimal(1234, 2), 0, 100) == Decimal(1234, 2);
    ShowTwelvePointThirtyFour();
  }

  lemma TrailingDotStep()
    ensures NormalizeRate("5.") == ClampNumberString("5.", 0, 100)
    ensures ParseNumber("5.") == Finite(Decimal(5, 0))
  {
    assert "5" + ['.'] + "" == "5.";
    assert Prefix("", 2) == "";
    NormalizeRateOfFraction("5", "");
    ParseFivePoint();
  }

  lemma ParseFivePoint()
    ensures ParseNumber("5.") == Finite(Decimal(5, 0))
  {
    assert "5" + ['.'] + "" == "5.";
    assert "5" + "" == "5";
    ParseFraction("5", "");
    assert DigitsValue("5") == 5;
  }

  lemma RateTrailingDotExample()
    ensures NormalizeRate("5.") == "5"
  {
    TrailingDotStep();
    ClampNumeric("5.", 0, 100, Decimal(5, 0));
    assert ClampDecimal(Decimal(5, 0), 0, 100) == Decimal(5, 0);
    assert NatDigits(5) == "5";
  }

  lemma LeadingDotStep()
    ensures NormalizeRate(".5") == ClampNumberString(".5", 0, 100)
    ensures ParseNumber(".5") == Finite(Decimal(5, 1))
  {
    assert "" + ['.'] + "5" == ".5";
    assert Prefix("5", 2) == "5";
    NormalizeRateOfFraction("", "5");
    ParsePointFive();
  }

  lemma ParsePointFive()
    ensures ParseNumber(".5") == Finite(Decimal(5, 1))
  {
    assert "" + ['.'] + "5" == ".5";
    assert "" + "5" == "5";
    ParseFraction("", "5");
    assert DigitsValue("5") == 5;
  }

  lemma ShowHalf()
    ensures ShowMagnitude(Decimal(5, 1)) == "0.5"
  {
    assert Normalize(Decimal(5, 1)) == Decimal(5, 1);
    assert Pow10(1) == 10;
    assert 5 / 10 == 0 && 5 % 10 == 5;
    ShowFraction(Decimal(5, 1), 0, 5, 1);
    assert NatDigits(0) == "0";
    assert DigitChar(5) == '5';
    assert PadDigits(0, 0) == "";
    assert PadDigits(5, 1) == PadDigits(0, 0) + [DigitChar(5)];
  }

  lemma RateLeadingDotExample()
    ensures NormalizeRate(".5") == "0.5"
  {
    LeadingDotStep();
    ClampNumeric(".5", 0, 100, Decimal(5, 1));
    assert ClampDecimal(Decimal(5, 1), 0, 100) == Decimal(5, 1);
    ShowHalf();
  }

  lemma AmountFilterStep()
    ensures OnlyDigitsAndDot("1234.5.6") == "1234.5.6"
  {
    assert AllDigitsOrDots("1234.5.6");
    FilterKeepsAll("1234.5.6", IsDigitOrDot);
  }

  lemma AmountDotStep()
    ensures KeepFirstDot("1234.5.6") == "1234.56"
  {
    var raw := "1234.5.6";
    assert raw[..4] == "1234" && raw[..5] == "1234." && raw[5..] == "5.6";
    assert '.' !in "1234";
    TailDotsRemoved();
    assert "1234." + "56" == "1234.56";
    KeepFirstDotAt(raw, 4);
  }

  lemma TailDotsRemoved()
    ensures Remove("5.6", '.') == "56"
  {
    var parts := ["5", "6"];
    assert parts[1..] == ["6"];
    assert Join(parts, '.') == "5" + ['.'] + "6" == "5.6";
    assert Concat(parts) == "5" + "6" == "56";
    RemoveJoin(parts, '.');
  }

  lemma AmountGroupStep()
    ensures FormatThousandsMX("1234.56") == "1,234.56"
  {
    assert "1234" + ['.'] + "56" == "1234.56";
    assert "1234"[..1] == "1" && "1234"[1..] == "234";
    assert GroupDigits("1234") == "1,234";
    assert "1,234" + "." + "56" == "1,234.56";
    FormatThousandsFraction("1234", "56");
  }

  /** Several dots: the first is kept, the digits after it run together, and the integer part is grouped. */
  lemma AmountDotsExample()
    ensures NormalizeAmount("1234.5.6") == "1,234.56"
  {
    AmountFilterStep();
    AmountDotStep();
    AmountGroupStep();
  }

  // ---------------------------------------------------------------------------
  // Component state and its transitions
  // ---------------------------------------------------------------------------

  /** The component's state: `result` is `null` (`None`) or the normalised result. */
  datatype State = State(form: Form, result: Option<SimulationResult>, loading: bool, error: string)

  /** The first render: the restored form, nothing shown, idle. */
  function InitialState(stored: Option<string>, parse: string -> Option<JsValue>): (s: State)
    ensures !s.loading && s.result.None? && s.error == ""
    ensures stored.None? ==> s.form == DefaultForm
  {
    State(LoadFormDefaults(stored, parse), None, false, "")
  }

  /** Typing in the amount field reformats it and clears the table and the error. */
  function OnAmountChange(s: State, input: string): (s': State)
    ensures s'.form.amount == NormalizeAmount(input)
    ensures s'.form.rate == s.form.rate && s'.form.months == s.form.months
    ensures s'.result.None? && s'.error == "" && s'.loading == s.loading
  {
    s.(form := s.form.(amount := NormalizeAmount(input)), result := None, error := "")
  }

  /** Typing in the rate field changes the rate and nothing else. */
  function OnRateChange(s: State, input: string): (s': State)
    ensures s'.form.rate == NormalizeRate(input)
    ensures s'.form.amount == s.form.amount && s'.form.months == s.form.months
    ensures s'.result == s.result && s'.error == s.error && s'.loading == s.loading
  {
    s.(form := s.form.(rate := NormalizeRate(input)))
  }

  /** Typing in the months field keeps its digits and changes nothing else. */
  function OnMonthsChange(s: State, input: string): (s': State)
    ensures s'.form.months == OnlyDigits(input) && AllDigits(s'.form.months)
    ensures s'.form.amount == s.form.amount && s'.form.rate == s.form.rate
    ensures s'.result == s.result && s'.error == s.error && s'.loading == s.loading
  {
    s.(form := s.form.(months := OnlyDigits(input)))
  }

  const EmptyScheduleMessage := "Backend returned an empty schedule."
  const FallbackErrorMessage := "Something went wrong."

  /** The start of `handleSubmit`: the spinner goes on and the error is cleared;
      the table from the previous submit stays. */
  function StartSubmit(s: State): (s': State)
    ensures s'.loading && s'.error == ""
    ensures s'.result == s.result && s'.form == s.form
  {
    s.(loading := true, error := "")
  }

  /** The end of `handleSubmit`, once the request has settled. A resolved
      response is shown only when its schedule has a truthy length. */
  function FinishSubmit(s: State, outcome: Outcome): (s': State)
    ensures !s'.loading && s'.form == s.form
    ensures s'.result.Some? <==>
              outcome.Resolved? && Truthy(LengthOf(NormalizeSimulationResponse(outcome.data).schedule))
    ensures s'.result.Some? ==> s'.result.value == NormalizeSimulationResponse(outcome.data) && s'.error == s.error
    ensures outcome.Resolved? && s'.result.None? ==> s'.error == EmptyScheduleMessage
    ensures outcome.Rejected? ==> s'.error == if outcome.message == "" then FallbackErrorMessage else outcome.message
  {
    match outcome
    case Rejected(message) =>
      s.(result := None, loading := false, error := if message == "" then FallbackErrorMessage else message)
    case Resolved(data) =>
      var normalized := NormalizeSimulationResponse(data);
      if !Truthy(LengthOf(normalized.schedule)) then
        s.(result := None, loading := false, error := EmptyScheduleMessage)
      else
        s.(result := Some(normalized), loading := false)
  }

  /** A whole submit: the request is built from the form as it was when the
      submit began. Afterwards the spinner is off, the form is untouched, and
      exactly one of a table and an error message is shown. */
  function Submit(s: State, send: SimulationRequest -> FetchResult): (s': State)
    ensures !s'.loading && s'.form == s.form
    ensures s'.result.Some? <==> s'.error == ""
  {
    FinishSubmit(StartSubmit(s), SimulateLoan(s.form.amount, s.form.rate, s.form.months, send))
  }

  /** A schedule with at least one row is shown as the result. */
  lemma SubmitShowsSchedule(s: State, send: SimulationRequest -> FetchResult, data: JsValue, rows: seq<JsValue>)
    requires SimulateLoan(s.form.amount, s.form.rate, s.form.months, send) == Resolved(data)
    requires NormalizeSimulationResponse(data).schedule == Arr(rows) && |rows| > 0
    ensures Submit(s, send) == s.(result := Some(NormalizeSimulationResponse(data)), loading := false, error := "")
  {
  }

  /** Whatever was typed, the amount handler never produces a field that
      `Number` rejects unless only a dot is left; the rate and months handlers
      likewise, and the rate sent lies in [0, 100]. */
  lemma HandledFieldsAreNumbers(amountInput: string, rateInput: string, monthsInput: string)
    ensures var req := BuildRequest(NormalizeAmount(amountInput), NormalizeRate(rateInput), OnlyDigits(monthsInput));
            && (req.amount.Finite? <==> KeepFirstDot(OnlyDigitsAndDot(amountInput)) != ".")
            && (req.rate.Finite? <==> NormalizeRate(rateInput) != ".")
            && (req.rate.Finite? ==> AtLeast(req.rate.value, 0) && AtMost(req.rate.value, 100))
            && req.months.Finite?
  {
    HandledAmount(amountInput, rateInput, monthsInput);
    HandledRate(amountInput, rateInput, monthsInput);
    HandledMonths(amountInput, rateInput, monthsInput);
  }

  lemma HandledAmount(amountInput: string, rateInput: string, monthsInput: string)
    ensures var req := BuildRequest(NormalizeAmount(amountInput), NormalizeRate(rateInput), OnlyDigits(monthsInput));
            req.amount.Finite? <==> KeepFirstDot(OnlyDigitsAndDot(amountInput)) != "."
  {
    var kept := KeepFirstDot(OnlyDigitsAndDot(amountInput));
    NormalizeAmountShape(amountInput);
    KeepFirstDotShape(OnlyDigitsAndDot(amountInput));
    NumeralOrDot(kept);
    if kept == "." {
      assert !HasDigit(kept);
    }
  }

  lemma HandledRate(amountInput: string, rateInput: string, monthsInput: string)
    ensures var req := BuildRequest(NormalizeAmount(amountInput), NormalizeRate(rateInput), OnlyDigits(monthsInput));
            && (req.rate.Finite? <==> NormalizeRate(rateInput) != ".")
            && (req.rate.Finite? ==> AtLeast(req.rate.value, 0) && AtMost(req.rate.value, 100))
  {
    NormalizeRateShape(rateInput);
    if NormalizeRate(rateInput) == "." {
      assert !HasDigit(".");
    }
  }

  lemma HandledMonths(amountInput: string, rateInput: string, monthsInput: string)
    ensures BuildRequest(NormalizeAmount(amountInput), NormalizeRate(rateInput), OnlyDigits(monthsInput)).months.Finite?
  {
    var m := OnlyDigits(monthsInput);
    if m != "" {
      WholeNumeral(m);
    }
  }

}
