/**
 The simulation request/response protocol of Frontend/src/api.js: building
 the numeric request from the form's text, choosing the error message of a
 rejected request, unwrapping the `data` envelope, and reconciling the
 array-shaped and object-shaped success payloads.
 */
module Api {
  import opened Wrappers
  import opened Text
  import opened Numbers
  import opened Js

  // ---------------------------------------------------------------------------
  // Request
  // ---------------------------------------------------------------------------

  datatype SimulationRequest = SimulationRequest(amount: JsNumber, rate: JsNumber, months: JsNumber)

  /** The body of `POST /api/simulate`: the amount loses its grouping commas,
      then every field goes through `Number`. */
  function BuildRequest(amount: string, rate: string, months: string): (req: SimulationRequest)
    ensures req.amount.Finite? <==> Remove(amount, ',') == "" || IsNumeral(Remove(amount, ','))
    ensures req.rate.Finite? <==> rate == "" || IsNumeral(rate)
    ensures req.months.Finite? <==> months == "" || IsNumeral(months)
  {
    SimulationRequest(ParseNumber(Remove(amount, ',')), ParseNumber(rate), ParseNumber(months))
  }

  /** `JSON.stringify` of the request: a `NaN` field is sent as `null`. */
  function RequestJson(req: SimulationRequest): (json: JsValue)
    ensures json.Obj? && json.fields.Keys == {"amount", "rate", "months"}
    ensures json.fields["amount"] == (if req.amount.Finite? then Num(req.amount.value) else Null)
    ensures json.fields["rate"] == (if req.rate.Finite? then Num(req.rate.value) else Null)
    ensures json.fields["months"] == (if req.months.Finite? then Num(req.months.value) else Null)
  {
    Obj(map["amount" := FromNumber(req.amount), "rate" := FromNumber(req.rate), "months" := FromNumber(req.months)])
  }

  lemma RemoveCommasExample()
    ensures Remove("50,000", ',') == "50000"
  {
    var parts := ["50", "000"];
    assert parts[1..] == ["000"];
    assert Join(parts, ',') == "50" + [','] + "000" == "50,000";
    assert Concat(parts) == "50" + "000" == "50000";
    RemoveJoin(parts, ',');
  }

  lemma ParseExamples()
    ensures ParseNumber("50000") == Finite(Decimal(50000, 0))
    ensures ParseNumber("24") == Finite(Decimal(24, 0))
    ensures ParseNumber("12") == Finite(Decimal(12, 0))
  {
    FiftyThousandValue();
    ParseWhole("50000");
    SmallValues();
    ParseWhole("24");
    ParseWhole("12");
  }

  lemma FiftyThousandValue()
    ensures AllDigits("50000") && DigitsValue("50000") == 50000
  {
    assert "50000"[..4] == "5000" && "5000"[..3] == "500" && "500"[..2] == "50" && "50"[..1] == "5";
    assert DigitsValue("5") == 5;
    assert DigitsValue("50") == 50;
    assert DigitsValue("500") == 500;
    assert DigitsValue("5000") == 5000;
  }

  lemma SmallValues()
    ensures AllDigits("24") && DigitsValue("24") == 24
    ensures AllDigits("12") && DigitsValue("12") == 12
  {
    assert "24"[..1] == "2" && "12"[..1] == "1";
    assert DigitsValue("2") == 2 && DigitsValue("1") == 1;
  }

  /** The default form `("50,000", "24", "12")` is sent as `{amount: 50000, rate: 24, months: 12}`. */
  lemma DefaultRequestExample()
    ensures RequestJson(BuildRequest("50,000", "24", "12")) ==
              Obj(map["amount" := Num(Decimal(50000, 0)), "rate" := Num(Decimal(24, 0)), "months" := Num(Decimal(12, 0))])
  {
    RemoveCommasExample();
    ParseExamples();
  }

  // ---------------------------------------------------------------------------
  // Response
  // ---------------------------------------------------------------------------

  /** What `fetch` produced: no response at all (the transport's own error
      message), or a status code and a body that may not be JSON. */
  datatype FetchResult = NetworkFailure(message: string) | Response(status: int, body: Option<JsValue>)

  /** How the promise returned by `simulateLoan` settles. */
  datatype Outcome = Resolved(data: JsValue) | Rejected(message: string)

  const RequestFailedMessage := "Request failed. Please check your inputs and try again."

  /** `res.ok`. */
  predicate IsOk(status: int) {
    200 <= status <= 299
  }

  /** `json?.detail || json?.message || fallback`, as the message of the thrown `Error`. */
  function ErrorMessage(json: JsValue): (m: string)
    ensures Truthy(Get(json, "detail")) ==> m == ToText(Get(json, "detail"))
    ensures !Truthy(Get(json, "detail")) && Truthy(Get(json, "message")) ==> m == ToText(Get(json, "message"))
    ensures !Truthy(Get(json, "detail")) && !Truthy(Get(json, "message")) ==> m == RequestFailedMessage
  {
    ToText(Or(Get(json, "detail"), Or(Get(json, "message"), Str(RequestFailedMessage))))
  }

  /** `json?.data ?? json`. */
  function Unwrap(json: JsValue): (data: JsValue)
    ensures Nullish(Get(json, "data")) ==> data == json
    ensures !Nullish(Get(json, "data")) ==> json.Obj? && data == json.fields["data"]
  {
    Coalesce(Get(json, "data"), json)
  }

  /** `simulateLoan`: one request, built from the form's text; `send` stands for `fetch`. */
  function SimulateLoan(amount: string, rate: string, months: string, send: SimulationRequest -> FetchResult): (o: Outcome)
    ensures send(BuildRequest(amount, rate, months)).NetworkFailure? ==>
              o == Rejected(send(BuildRequest(amount, rate, months)).message)
    ensures send(BuildRequest(amount, rate, months)).Response? ==>
              (o.Resolved? <==> IsOk(send(BuildRequest(amount, rate, months)).status))
    ensures send(BuildRequest(amount, rate, months)).Response? && !IsOk(send(BuildRequest(amount, rate, months)).status) ==>
              o == Rejected(ErrorMessage(send(BuildRequest(amount, rate, months)).body.GetOr(Null)))
    ensures send(BuildRequest(amount, rate, months)).Response? && IsOk(send(BuildRequest(amount, rate, months)).status) ==>
              o == Resolved(Unwrap(send(BuildRequest(amount, rate, months)).body.GetOr(Null)))
  {
    match send(BuildRequest(amount, rate, months))
    case NetworkFailure(message) => Rejected(message)
    case Response(status, body) =>
      var json := body.GetOr(Null);
      if !IsOk(status) then Rejected(ErrorMessage(json)) else Resolved(Unwrap(json))
  }

  /** A rejected request whose body is not JSON carries the fixed fallback message. */
  lemma RejectedWithoutBody(amount: string, rate: string, months: string, send: SimulationRequest -> FetchResult)
    requires send(BuildRequest(amount, rate, months)).Response?
    requires !IsOk(send(BuildRequest(amount, rate, months)).status)
    requires send(BuildRequest(amount, rate, months)).body.None?
    ensures SimulateLoan(amount, rate, months, send) == Rejected(RequestFailedMessage)
  {
  }

  /** A rejected request with a JSON object body carries the server's string
      `detail`, else (when `detail` is missing or falsy) its string `message`. */
  lemma RejectedWithDetail(amount: string, rate: string, months: string, send: SimulationRequest -> FetchResult,
                           status: int, fields: map<string, JsValue>)
    requires !IsOk(status)
    requires send(BuildRequest(amount, rate, months)) == Response(status, Some(Obj(fields)))
    ensures "detail" in fields && fields["detail"].Str? && fields["detail"].s != "" ==>
              SimulateLoan(amount, rate, months, send) == Rejected(fields["detail"].s)
    ensures !Truthy(Get(Obj(fields), "detail")) && "message" in fields && fields["message"].Str? && fields["message"].s != "" ==>
              SimulateLoan(amount, rate, months, send) == Rejected(fields["message"].s)
  {
  }

  /** A successful body that is not JSON resolves to `null`. */
  lemma ResolvedWithoutBody(amount: string, rate: string, months: string, send: SimulationRequest -> FetchResult)
    requires send(BuildRequest(amount, rate, months)).Response?
    requires IsOk(send(BuildRequest(amount, rate, months)).status)
    requires send(BuildRequest(amount, rate, months)).body.None?
    ensures SimulateLoan(amount, rate, months, send) == Resolved(Null)
  {
  }

  /** The envelope the backend answers with (`ok`, `simulation_id`, `audit_status`, `data`). */
  function Envelope(simulationId: JsValue, inner: JsValue): JsValue {
    Obj(map["ok" := Bool(true), "simulation_id" := simulationId, "audit_status" := Str("PENDING"), "data" := inner])
  }

  /** A 2xx envelope resolves to its inner object; `simulation_id` is dropped. */
  lemma EnvelopeUnwraps(amount: string, rate: string, months: string, send: SimulationRequest -> FetchResult,
                        status: int, simulationId: JsValue, inner: JsValue)
    requires IsOk(status) && !Nullish(inner)
    requires send(BuildRequest(amount, rate, months)) == Response(status, Some(Envelope(simulationId, inner)))
    ensures SimulateLoan(amount, rate, months, send) == Resolved(inner)
  {
  }

  // ---------------------------------------------------------------------------
  // normalizeSimulationResponse
  // ---------------------------------------------------------------------------

  /** The canonical result; each field is whatever the payload carried (`undefined` if nothing). */
  datatype SimulationResult = SimulationResult(monthlyPayment: JsValue, totalPaid: JsValue, totalInterest: JsValue, schedule: JsValue)

  /** `normalizeSimulationResponse`: a four-element array is read by position,
      anything else by field name. */
  function NormalizeSimulationResponse(data: JsValue): (r: SimulationResult)
    ensures data.Arr? && |data.items| == 4 ==>
              r == SimulationResult(data.items[0], data.items[1], data.items[2], data.items[3])
    ensures data.Obj? ==>
              && r.monthlyPayment == (if "monthly_payment" in data.fields then data.fields["monthly_payment"] else Undefined)
              && r.totalPaid == (if "total_paid" in data.fields then data.fields["total_paid"] else Undefined)
              && r.totalInterest == (if "total_interest" in data.fields then data.fields["total_interest"] else Undefined)
              && r.schedule == (if "schedule" in data.fields then data.fields["schedule"] else Undefined)
    ensures !data.Obj? && !(data.Arr? && |data.items| == 4) ==>
              r == SimulationResult(Undefined, Undefined, Undefined, Undefined)
  {
    if data.Arr? && |data.items| == 4 then
      SimulationResult(data.items[0], data.items[1], data.items[2], data.items[3])
    else
      SimulationResult(Get(data, "monthly_payment"), Get(data, "total_paid"), Get(data, "total_interest"), Get(data, "schedule"))
  }

  /** The result as the JavaScript object it is. */
  function ResultJson(r: SimulationResult): JsValue {
    Obj(map["monthly_payment" := r.monthlyPayment, "total_paid" := r.totalPaid,
            "total_interest" := r.totalInterest, "schedule" := r.schedule])
  }

  /** The array form and the object form of the same four values normalise alike. */
  lemma NormalizeShapesAgree(a: JsValue, b: JsValue, c: JsValue, d: JsValue)
    ensures NormalizeSimulationResponse(Arr([a, b, c, d])) ==
            NormalizeSimulationResponse(ResultJson(SimulationResult(a, b, c, d)))
  {
  }

  /** Normalising an already normalised result changes nothing. */
  lemma NormalizeResponseIdempotent(data: JsValue)
    ensures NormalizeSimulationResponse(ResultJson(NormalizeSimulationResponse(data))) ==
            NormalizeSimulationResponse(data)
  {
  }
}
