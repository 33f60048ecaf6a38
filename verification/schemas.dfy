/**
 The request schema of Backend/schemas.py: the field constraints the web
 framework checks before the simulation endpoint runs, and their agreement
 with the guards of `calculate_french_amortization`.
 */
module Schemas {
  import opened Wrappers
  import opened Amortization
  import Numbers
  import Text
  import Js
  import Api

  /** The three fields of a `POST /simulate` body, as exact values; `None`
      when the field is `null` or missing. */
  datatype Payload = Payload(amount: Option<real>, rate: Option<real>, months: Option<real>)

  /** A validated request: `months` has become an integer. */
  datatype SimulateRequest = SimulateRequest(amount: real, rate: real, months: int)

  /** An `int` field accepts a number only when it has no fractional part. */
  predicate IsInteger(x: real) {
    x == x.Floor as real
  }

  /** `Field(...)` makes every field required, and `float`/`int` refuse `None`. */
  predicate AmountOk(p: Payload) {
    p.amount.Some? && p.amount.value > 0.0
  }

  predicate RateOk(p: Payload) {
    p.rate.Some? && 0.0 <= p.rate.value <= 100.0
  }

  predicate MonthsOk(p: Payload) {
    p.months.Some? && IsInteger(p.months.value) && p.months.value > 0.0
  }

  /** Every field is checked and every failing one reported, in declaration order. */
  function FieldErrors(p: Payload): (errs: seq<string>)
    ensures "amount" in errs <==> !AmountOk(p)
    ensures "rate" in errs <==> !RateOk(p)
    ensures "months" in errs <==> !MonthsOk(p)
    ensures |errs| <= 3
  {
    (if AmountOk(p) then [] else ["amount"]) +
    (if RateOk(p) then [] else ["rate"]) +
    (if MonthsOk(p) then [] else ["months"])
  }

  /** Validation of `SimulateRequest`: `amount > 0`, `0 <= rate <= 100`, and
      `months` a whole number above 0; otherwise the names of the failing fields. */
  function Validate(p: Payload): (res: Result<SimulateRequest, seq<string>>)
    ensures res.Ok? <==>
              && p.amount.Some? && p.rate.Some? && p.months.Some?
              && p.amount.value > 0.0 && 0.0 <= p.rate.value <= 100.0
              && IsInteger(p.months.value) && p.months.value > 0.0
    ensures res.Ok? ==>
              && res.value.amount == p.amount.value && res.value.rate == p.rate.value
              && res.value.months as real == p.months.value
    ensures res.Err? ==> res.error == FieldErrors(p) && |res.error| >= 1
  {
    if AmountOk(p) && RateOk(p) && MonthsOk(p) then
      Ok(SimulateRequest(p.amount.value, p.rate.value, p.months.value.Floor))
    else Err(FieldErrors(p))
  }

  /** Every request the schema accepts passes the guards of
      `calculate_french_amortization`, so none of its `ValueError`s (and no
      422 from the endpoint) can follow a validated request. */
  lemma AcceptedPassesGuards(p: Payload)
    requires Validate(p).Ok?
    ensures var req := Validate(p).value;
            CalculateFrenchAmortization(req.amount, req.rate, req.months).Ok?
  {
  }

  /** Conversely, the guards accept exactly what the schema accepts: a
      request with an integral term passes validation iff it passes the guards. */
  lemma SchemaMatchesGuards(amount: real, rate: real, months: int)
    ensures Validate(Payload(Some(amount), Some(rate), Some(months as real))).Ok? <==>
            CalculateFrenchAmortization(amount, rate, months).Ok?
  {
    assert (months as real).Floor == months;
  }

  /** A fractional term is refused by the schema, before any calculation. */
  lemma FractionalMonthsRejected(amount: real, rate: real, months: real)
    requires !IsInteger(months)
    ensures Validate(Payload(Some(amount), Some(rate), Some(months))).Err?
    ensures "months" in Validate(Payload(Some(amount), Some(rate), Some(months))).error
  {
  }

  /** A null or missing field is refused and reported under its own name. */
  lemma NullFieldRejected(p: Payload)
    requires p.amount.None? || p.rate.None? || p.months.None?
    ensures Validate(p).Err?
    ensures p.amount.None? ==> "amount" in Validate(p).error
    ensures p.rate.None? ==> "rate" in Validate(p).error
    ensures p.months.None? ==> "months" in Validate(p).error
  {
  }

  // ---------------------------------------------------------------------------
  // The body the frontend sends, as the schema reads it
  // ---------------------------------------------------------------------------

  /** The exact value of a decimal, `units / 10^scale`. */
  function Exact(d: Numbers.Decimal): (x: real)
    ensures x * Numbers.Pow10(d.scale) as real == d.units as real
  {
    var p := Numbers.Pow10(d.scale) as real;
    DivThenMul(d.units as real, p);
    d.units as real / p
  }

  /** One field of a JSON body: a number gives its value; `null`, a missing
      key, or a body that is not an object gives none. */
  function BodyField(body: Js.JsValue, key: string): (f: Option<real>)
    ensures f.Some? <==> body.Obj? && key in body.fields && body.fields[key].Num?
    ensures f.Some? ==> f.value == Exact(body.fields[key].n)
  {
    match Js.Get(body, key)
    case Num(d) => Some(Exact(d))
    case _ => None
  }

  function BodyPayload(body: Js.JsValue): Payload {
    Payload(BodyField(body, "amount"), BodyField(body, "rate"), BodyField(body, "months"))
  }

  /** A field that `Number` turned into `NaN` travels as `null` and is
      refused under its name: the backend answers 422 without calculating. */
  lemma NaNFieldRejected(req: Api.SimulationRequest)
    ensures var res := Validate(BodyPayload(Api.RequestJson(req)));
            && (req.amount.NaN? ==> res.Err? && "amount" in res.error)
            && (req.rate.NaN? ==> res.Err? && "rate" in res.error)
            && (req.months.NaN? ==> res.Err? && "months" in res.error)
  {
    if req.amount.NaN? || req.rate.NaN? || req.months.NaN? {
      NullFieldRejected(BodyPayload(Api.RequestJson(req)));
    }
  }

  /** The amount field can be left as a lone ".", which `Number` reads as
      `NaN`: that request is always refused under `amount`. */
  lemma LoneDotAmountRejected(rate: string, months: string)
    ensures var res := Validate(BodyPayload(Api.RequestJson(Api.BuildRequest(".", rate, months))));
            res.Err? && "amount" in res.error
  {
    var req := Api.BuildRequest(".", rate, months);
    assert req.amount.NaN? by {
      assert Text.Remove(".", ',') == ".";
    }
    NaNFieldRejected(req);
  }
}
