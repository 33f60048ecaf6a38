/**
 The audit notification of Frontend/src/utils/auditToast.js, as the trace of
 effects it produces: a "started" toast, one timer, one status fetch when the
 timer fires, and one toast for what the fetch returned. The toast library,
 the timer and the fetch are not executed; they are recorded.
 */
module AuditToast {
  import opened Js
  import opened Numbers

  /** Which toast call: the plain one with the information icon, `toast.success`,
      `toast.error`, or the plain one without an icon. */
  datatype Tone = Info | Success | Error | Blank

  datatype Effect =
    | Toast(tone: Tone, text: string)
    | Timer(delayMs: JsValue)
    | FetchStatus(simulationId: JsValue)

  /** How `fetchAuditStatus(simulationId)` settled: a value, or a thrown error. */
  datatype StatusReply = Returned(audit: JsValue) | Threw(err: JsValue)

  const DefaultDelayMs := Num(Decimal(3000, 0))
  const InProgressText := "Auditoría sigue en proceso…"
  const FetchFailedText := "No se pudo consultar la auditoría."

  /** A default parameter replaces only an `undefined` argument. */
  function EffectiveDelay(delayMs: JsValue): (d: JsValue)
    ensures delayMs.Undefined? ==> d == DefaultDelayMs
    ensures !delayMs.Undefined? ==> d == delayMs
  {
    if delayMs.Undefined? then DefaultDelayMs else delayMs
  }

  function StartText(amount: JsValue): string {
    "Iniciando auditoría de riesgo \n Monto: " + ToText(amount)
  }

  function ApprovedText(amount: JsValue): string {
    "Auditoría aprobada.\n Monto: " + ToText(amount)
  }

  function FailedText(amount: JsValue): string {
    "Auditoría fallida.\n Monto: " + ToText(amount)
  }

  /** The toast the timer callback shows for the fetch's result. */
  function OutcomeToast(amount: JsValue, reply: StatusReply): (e: Effect)
    ensures e.Toast?
    ensures reply.Returned? && Get(reply.audit, "audit_status") == Str("SUCCESS") ==>
              e == Toast(Success, ApprovedText(amount))
    ensures reply.Returned? && Get(reply.audit, "audit_status") == Str("FAILED") ==>
              e == Toast(Error, FailedText(amount))
    ensures reply.Returned? && Get(reply.audit, "audit_status") != Str("SUCCESS") &&
            Get(reply.audit, "audit_status") != Str("FAILED") ==>
              e == Toast(Blank, InProgressText)
    ensures reply.Threw? ==>
              e == Toast(Error, if Truthy(Get(reply.err, "message")) then ToText(Get(reply.err, "message")) else FetchFailedText)
  {
    match reply
    case Returned(audit) =>
      var status := Get(audit, "audit_status");
      if status == Str("SUCCESS") then Toast(Success, ApprovedText(amount))
      else if status == Str("FAILED") then Toast(Error, FailedText(amount))
      else Toast(Blank, InProgressText)
    case Threw(err) =>
      Toast(Error, ToText(Or(Get(err, "message"), Str(FetchFailedText))))
  }

  /** `auditToast(simulationId, amount, fetchAuditStatus, delayMs)`: the whole
      trace, including what the deferred callback does once the fetch settles. */
  function AuditToastTrace(simulationId: JsValue, amount: JsValue, delayMs: JsValue, reply: StatusReply): (trace: seq<Effect>)
    ensures trace == [] <==> !Truthy(simulationId)
    ensures Truthy(simulationId) ==>
              && |trace| == 4
              && trace[0] == Toast(Info, StartText(amount))
              && trace[1] == Timer(EffectiveDelay(delayMs))
              && trace[2] == FetchStatus(simulationId)
              && trace[3] == OutcomeToast(amount, reply)
  {
    if !Truthy(simulationId) then []
    else [Toast(Info, StartText(amount)), Timer(EffectiveDelay(delayMs)), FetchStatus(simulationId), OutcomeToast(amount, reply)]
  }

  function ToastCount(trace: seq<Effect>): nat {
    if |trace| == 0 then 0 else (if trace[0].Toast? then 1 else 0) + ToastCount(trace[1..])
  }

  function FetchCount(trace: seq<Effect>): nat {
    if |trace| == 0 then 0 else (if trace[0].FetchStatus? then 1 else 0) + FetchCount(trace[1..])
  }

  /** A falsy id does nothing; any other id gives exactly two toasts, one
      timer and one fetch of that id, and the fetch comes after the timer. */
  lemma AuditToastCounts(simulationId: JsValue, amount: JsValue, delayMs: JsValue, reply: StatusReply)
    ensures var trace := AuditToastTrace(simulationId, amount, delayMs, reply);
            && (!Truthy(simulationId) ==> ToastCount(trace) == 0 && FetchCount(trace) == 0)
            && (Truthy(simulationId) ==> ToastCount(trace) == 2 && FetchCount(trace) == 1)
            && (forall k :: 0 <= k < |trace| && trace[k].FetchStatus? ==>
                  trace[k].simulationId == simulationId && k > 0 && trace[k - 1].Timer?)
  {
    var trace := AuditToastTrace(simulationId, amount, delayMs, reply);
    if Truthy(simulationId) {
      var t1, t2, t3 := trace[1..], trace[2..], trace[3..];
      assert t1[1..] == t2 && t2[1..] == t3 && t3[1..] == [];
      assert t3 == [OutcomeToast(amount, reply)] && ToastCount([]) == 0 && FetchCount([]) == 0;
      assert ToastCount(t3) == 1 && FetchCount(t3) == 0;
      assert ToastCount(t2) == 1 && FetchCount(t2) == 1;
      assert ToastCount(t1) == 1 && FetchCount(t1) == 1;
    }
  }

  /** Every toast that reports on the audit itself shows the amount, last. */
  lemma ToastsShowAmount(simulationId: JsValue, amount: JsValue, delayMs: JsValue, reply: StatusReply)
    requires Truthy(simulationId)
    ensures var trace := AuditToastTrace(simulationId, amount, delayMs, reply);
            && EndsWith(trace[0].text, ToText(amount))
            && (trace[3].tone == Success || (reply.Returned? && trace[3].tone == Error) ==>
                  EndsWith(trace[3].text, ToText(amount)))
  {
  }

  predicate EndsWith(s: string, suffix: string) {
    |suffix| <= |s| && s[|s| - |suffix|..] == suffix
  }

  /** A `PENDING` status, a missing one, or no object at all reads as "still in progress". */
  lemma PendingIsInProgress(amount: JsValue, audit: JsValue)
    requires Get(audit, "audit_status") == Str("PENDING") || Get(audit, "audit_status").Undefined?
    ensures OutcomeToast(amount, Returned(audit)) == Toast(Blank, InProgressText)
  {
  }

  /** An error whose `message` is missing or empty falls back to the fixed text. */
  lemma FetchFailedFallback(amount: JsValue, err: JsValue)
    requires !Truthy(Get(err, "message"))
    ensures OutcomeToast(amount, Threw(err)) == Toast(Error, FetchFailedText)
  {
  }
}
