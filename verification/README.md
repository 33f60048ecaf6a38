# CreditSim core in Dafny

CreditSim is a small loan simulator. A React form collects an amount, an
annual rate and a term in months. The backend computes a French amortization
schedule, where every month has the same payment. This project models the
logic between the keystrokes and the schedule, and proves properties of it.
The model covers:

- **Input normalisation** (`FormatForm`, `App`). The string filters and the
  thousands grouping. The clamp rule that applies only to numeric text. The
  three field handlers of the form.
- **The form's state** (`App`). Loading the stored defaults, and the
  transitions of `{form, result, loading, error}` around a submit.
- **The request/response protocol** (`Api`). Building the numeric request,
  choosing the error message, unwrapping the `data` envelope, and reconciling
  the array and object forms of the result.
- **The audit notification** (`AuditToast`). A trace of effects: a "started"
  toast, one timer, one status fetch, one outcome toast.
- **The backend** (`Amortization`, `Schemas`). `money`, the input guards,
  the constant payment, the month-by-month recurrence, and the request schema
  that gates the endpoint, read against the JSON body the frontend sends.

Shared vocabulary:

- `Text` holds filters, `split`/`join` and character counts.
- `Numbers` holds JavaScript numbers as exact decimals. It covers `Number(s)`
  on digit/dot strings and the shortest rendering that `String(n)` produces.
- `Js` holds a small JSON value type with JavaScript truthiness, `?.`, `||`,
  `??`, `.length` and `String()`.
- `Wrappers` holds `Option` and `Result`.

Effects are parameters:

- `localStorage.getItem` is the stored text (`Option<string>`).
- `JSON.parse` is an oracle that may fail (`string -> Option<JsValue>`).
- `fetch` is a function from the request to a `FetchResult`.
- `fetchAuditStatus` is the `StatusReply` it settles with.
- Toasts and `setTimeout` are recorded as `Effect`s in a trace.

The backend is modelled over exact `real`s:

- `money(x, "0.01")` becomes `Money(x, Cents)`. It rounds half away from zero
  on `|x| * 10^places`, which is what `Decimal.quantize` with `ROUND_HALF_UP`
  does.
- The loop of `calculate_french_amortization` is an exact recurrence
  (`ExactRun`). Each row's figures pass through `money` only when the row is
  stored (`RoundRow`), exactly as the source never feeds a rounded figure back
  into the balance.

## Model

| member | source | states |
|---|---|---|
| FormatForm.OnlyDigitsAndDot | Frontend/src/utils/formatForm.js:1-3 | the result holds only digits and dots |
| FormatForm.OnlyDigitsAndDotIsFilter | Frontend/src/utils/formatForm.js:1-3 | keeps every digit and dot of the input as often as it occurs; no other character; distributes over concatenation (order kept); identity on digit/dot strings; idempotent |
| FormatForm.OnlyDigits | Frontend/src/utils/formatForm.js:5-7 | the result holds only digits |
| FormatForm.OnlyDigitsIsFilter | Frontend/src/utils/formatForm.js:5-7 | keeps every digit as often as it occurs and nothing else; order kept; idempotent |
| FormatForm.FormatThousandsMX | Frontend/src/utils/formatForm.js:11 | the empty string formats to the empty string |
| FormatForm.InsertCommasIsGrouping | Frontend/src/utils/formatForm.js:13 | the lookahead regex `\B(?=(\d{3})+(?!\d))`, modelled position by position, inserts exactly the commas of right-to-left grouping by threes |
| FormatForm.GroupDigitsWellGrouped | Frontend/src/utils/formatForm.js:13 | the grouped integer part has a first group of 1 to 3 digits and every later group of exactly 3 |
| FormatForm.FormatThousandsRoundTrip | Frontend/src/utils/formatForm.js:12-14 | for digits with at most one dot, deleting every comma from the output gives back the input |
| FormatForm.FormatThousandsGroups | Frontend/src/utils/formatForm.js:12-14 | the output has as many dot-separated pieces as the input; its integer part loses its commas back to the input's and is well grouped when not empty; the fractional part is copied unchanged, also when the integer part is empty (`".5"`) |
| FormatForm.FormatThousandsFraction | Frontend/src/utils/formatForm.js:12-14 | `a.b` formats to the grouping of `a`, a dot, and `b` as it was, for any digit strings `a` and `b`, either possibly empty |
| FormatForm.FormatThousandsFractionExample | Frontend/src/utils/formatForm.js:12-14 | `"1234567.5"` becomes `"1,234,567.5"` |
| FormatForm.ClampNumberString | Frontend/src/utils/formatForm.js:17-20 | `""` and `"."` are returned unchanged; text that `Number` reads as `NaN` becomes `""` |
| FormatForm.ClampDecimal | Frontend/src/utils/formatForm.js:21 | `min(max, max(min, n))`: the result lies in the bounds, equals `n` inside them, and is the violated bound outside |
| FormatForm.ClampNumberStringValue | Frontend/src/utils/formatForm.js:19-21 | on numeric text the result reads back as a number in `[min, max]` and is already in shortest form; a value inside the bounds comes back as itself, a value below `min` becomes `min` and a value above `max` becomes `max` |
| FormatForm.ClampAboveExample | Frontend/src/utils/formatForm.js:19-21 | `"150"` clamps to `"100"` |
| FormatForm.ClampLeadingZerosExample | Frontend/src/utils/formatForm.js:19-21 | `"007"` becomes `"7"` |
| FormatForm.ClampTwoDotsExample | Frontend/src/utils/formatForm.js:19-20 | `"1.2.3"` is not a number and becomes `""` |
| Numbers.ParseNumber | Frontend/src/api.js:7-9 | `Number(s)` on digit/dot text is finite exactly for `""` and numerals with at least one digit and at most one dot, and is then non-negative |
| Numbers.ParseShow | Frontend/src/utils/formatForm.js:21 | `Number(String(n))` gives back `n` in its normal form |
| App.InitialState | Frontend/src/App.jsx:39-42 | the first render is idle, with no result and no error, and without a stored form it shows the defaults |
| App.LoadFormDefaults | Frontend/src/App.jsx:22-35 | the defaults `50000`/`24`/`12` when the key is absent or empty, when `JSON.parse` throws, and when the document is `null` (reading a field of it throws) |
| App.LoadSavedForm | Frontend/src/App.jsx:26-32 | a stored form is read back as itself |
| App.LoadFieldFallback | Frontend/src/App.jsx:28-32 | each missing or `null` field falls back to its own default while the others are kept |
| App.KeepFirstDot | Frontend/src/App.jsx:53-55 | text with at most one dot is left as it is |
| App.KeepFirstDotAt | Frontend/src/App.jsx:53-55 | with several dots, the first is kept and the later dots are deleted, the digits after it kept in order |
| App.KeepFirstDotShape | Frontend/src/App.jsx:53-55 | at most one dot remains, one exactly when the input had any, and the non-dot characters are untouched |
| App.NormalizeAmount | Frontend/src/App.jsx:49-57 | input with no digit and no dot gives the empty field |
| App.NormalizeAmountShape | Frontend/src/App.jsx:49-57 | the amount holds only digits, commas and at most one dot; deleting the commas gives the dot-normalised raw text; deleting dots too gives exactly the input's digits |
| App.NormalizeAmountIdempotent | Frontend/src/App.jsx:49-57 | feeding the amount handler's output back in changes nothing |
| App.AmountDotsExample | Frontend/src/App.jsx:49-57 | `"1234.5.6"` becomes `"1,234.56"` |
| App.TruncateRate | Frontend/src/App.jsx:67-69 | text without a dot is left as it is |
| App.TruncateRateIsPrefix | Frontend/src/App.jsx:67-69 | keeping two decimals yields a prefix of the raw text, empty only for empty text |
| App.NormalizeRate | Frontend/src/App.jsx:64-75 | input with no digit and no dot gives the empty field |
| App.NormalizeRateShape | Frontend/src/App.jsx:64-75 | the rate is `""`, `"."`, or the shortest rendering of a number in `[0, 100]` with at most two decimals; it is `""` exactly when the input has no digit or dot |
| App.NormalizeRateIdempotent | Frontend/src/App.jsx:64-75 | feeding the rate handler's output back in changes nothing |
| App.RateTruncatedExample | Frontend/src/App.jsx:64-75 | `"12.3456"` becomes `"12.34"` |
| App.RateTrailingDotExample | Frontend/src/App.jsx:64-75 | `"5."` becomes `"5"` |
| App.RateLeadingDotExample | Frontend/src/App.jsx:64-75 | `".5"` becomes `"0.5"` |
| App.OnAmountChange | Frontend/src/App.jsx:49-62 | sets the amount to the handler's output, clears `result` and `error`, and leaves the other fields alone |
| App.OnRateChange | Frontend/src/App.jsx:64-75 | changes only the rate |
| App.OnMonthsChange | Frontend/src/App.jsx:77-80 | sets months to the input's digits and changes nothing else |
| App.StartSubmit | Frontend/src/App.jsx:84-86 | sets `loading` and clears `error`; `result` and the form are untouched |
| App.FinishSubmit | Frontend/src/App.jsx:95-107 | `loading` ends false; a result is kept exactly when the normalised response has a non-empty `schedule`; otherwise `result` is cleared and `error` is the empty-schedule text, the thrown message, or `"Something went wrong."` when that message is empty |
| App.Submit | Frontend/src/App.jsx:83-108 | after a whole submit nothing is loading, the form is unchanged, and there is a result exactly when there is no error |
| App.SubmitShowsSchedule | Frontend/src/App.jsx:89-101 | a response with a non-empty schedule becomes the result, with no error |
| App.HandledFieldsAreNumbers | Frontend/src/api.js:2-10 | whatever is typed, the handlers' outputs are sent as a finite months count, a finite amount unless the text is a lone dot, and a rate in `[0, 100]` unless it is a lone dot |
| Api.RequestJson | Frontend/src/api.js:6-10 | the body has exactly the keys `amount`, `rate`, `months`; a finite field is sent as that number and a `NaN` as `null`, as `JSON.stringify` writes it |
| Api.BuildRequest | Frontend/src/api.js:2-10 | each field is finite exactly when its text (the amount after removing commas) is empty or a numeral |
| Api.DefaultRequestExample | Frontend/src/api.js:2-10 | `("50,000", "24", "12")` is sent as `{amount: 50000, rate: 24, months: 12}` |
| Api.ErrorMessage | Frontend/src/api.js:15-20 | `detail` when truthy, else `message` when truthy, else the fixed fallback text |
| Api.Unwrap | Frontend/src/api.js:24 | `data` when it is neither `null` nor `undefined`, otherwise the whole body |
| Api.SimulateLoan | Frontend/src/api.js:1-25 | a transport failure rejects with its own message; a response resolves exactly when its status is 2xx; a non-2xx response rejects with `detail`, else `message`, else the fixed text taken from its body; a 2xx response resolves to the body's `data` when present, else the body itself |
| Api.RejectedWithoutBody | Frontend/src/api.js:13-20 | a failed request whose body is not JSON rejects with the fallback text |
| Api.RejectedWithDetail | Frontend/src/api.js:15-20 | a non-2xx response whose body is an object rejects with its string `detail`; when `detail` is missing or falsy, with its string `message` |
| Api.ResolvedWithoutBody | Frontend/src/api.js:13-24 | a 2xx body that is not JSON resolves to `null` |
| Api.EnvelopeUnwraps | Frontend/src/api.js:24 | the backend's `{ok, simulation_id, audit_status, data}` envelope resolves to its inner object |
| Api.NormalizeSimulationResponse | Frontend/src/api.js:32-45 | a four-element array maps by position; an object is projected onto the four names, an absent name giving `undefined`; `null`, a primitive or an array of another length gives four `undefined`s |
| Api.NormalizeShapesAgree | Frontend/src/api.js:27-45 | the array form and the object form of the same four values normalise alike |
| Api.NormalizeResponseIdempotent | Frontend/src/api.js:32-45 | normalising a normalised result changes nothing |
| AuditToast.EffectiveDelay | Frontend/src/utils/auditToast.js:10 | the delay defaults to 3000 ms only when it is not given |
| AuditToast.AuditToastTrace | Frontend/src/utils/auditToast.js:10-29 | a falsy id produces nothing; otherwise the started toast with the amount, one timer, one fetch of that id, and the outcome toast, in that order |
| AuditToast.OutcomeToast | Frontend/src/utils/auditToast.js:16-28 | `SUCCESS` gives the approved toast, `FAILED` the failed one, anything else the in-progress one; a rejected fetch gives an error toast with its message or the fixed fallback |
| AuditToast.AuditToastCounts | Frontend/src/utils/auditToast.js:11-29 | a truthy id gives exactly two toasts and one fetch, and the fetch follows the timer; a falsy id gives none |
| AuditToast.ToastsShowAmount | Frontend/src/utils/auditToast.js:13-22 | the started, approved and failed toasts end with the amount |
| AuditToast.PendingIsInProgress | Frontend/src/utils/auditToast.js:19-25 | `PENDING` or a missing status reads as in progress |
| AuditToast.FetchFailedFallback | Frontend/src/utils/auditToast.js:27 | an error without a message falls back to the fixed text |
| Amortization.Money | Backend/services/amortization.py:13-22 | `money(x)` is a whole number of units of the precision, within half a unit of `x` |
| Amortization.MoneyTiesAwayFromZero | Backend/services/amortization.py:22 | a value exactly halfway between two units rounds away from zero |
| Amortization.MoneyOdd | Backend/services/amortization.py:13-22 | `money(-x) == -money(x)` |
| Amortization.MoneyExact | Backend/services/amortization.py:13-22 | a value already on the grid is kept |
| Amortization.MoneyIdempotent | Backend/services/amortization.py:13-22 | `money(money(x)) == money(x)` |
| Amortization.CalculateFrenchAmortization | Backend/services/amortization.py:71-107 | the guards run in order and the first failure decides the error; past the guards the model always succeeds (see Left out), with one row per month at the monthly rate |
| Amortization.MonthRate | Backend/services/amortization.py:84 | the monthly rate is `annual_rate / 1200`, between 0 and 1/12 for a valid rate, and zero only for a zero rate |
| Amortization.Payment | Backend/services/amortization.py:86-90 | at rate 0 the payments add up to the amount; otherwise `p(1 - (1 + r)^-n) = L r`; a positive amount gives a positive payment |
| Amortization.ExactRun | Backend/services/amortization.py:94-105 | row `k` is month `m + k + 1`, pays the payment, and splits it into interest plus principal |
| Amortization.Amortize | Backend/services/amortization.py:92-107 | the schedule numbers the months from 1 and every row carries the monthly payment |
| Amortization.ExactRunFollowsRecurrence | Backend/services/amortization.py:94-105 | the loop yields one row per remaining month, numbered upwards, each with interest on the outstanding balance, the rest of the payment as principal, and the balance reduced by it |
| Amortization.ExactRunAccounting | Backend/services/amortization.py:94-105 | interest accrued plus the opening balance equals the payments plus the closing balance |
| Amortization.BalanceClosedForm | Backend/services/amortization.py:95-104 | after `k` payments the balance is `b (1+r)^k - p (1 + (1+r) + ... + (1+r)^(k-1))` |
| Amortization.FinalBalanceIsZero | Backend/services/amortization.py:86-90 | the payment, `amount / n` at rate zero and the annuity formula otherwise, leaves exactly nothing owed after `n` months |
| Amortization.AnnuityRetires | Backend/services/amortization.py:90 | writing `q` for `(1 + r)^n` and `G` for `(q - 1) / r`, a payment with `p(1 - 1/q) = L r` satisfies `p G = L q`: the payments retire the loan |
| Amortization.ScheduleShape | Backend/services/amortization.py:94-107 | months run 1 to `n` in order; every row pays the returned monthly payment; the last row's balance is 0 |
| Amortization.RowsFollowRecurrence | Backend/services/amortization.py:95-102 | row k of the schedule is month k+1 of the exact recurrence (interest on the balance still owed, principal the rest of the payment, balance reduced by that principal) with every figure passed through money; rounded figures are never fed back into later months |
| Amortization.BalanceStep | Backend/services/amortization.py:102-104 | the balance after `k + 1` payments is that after `k` less the principal of month `k + 1` |
| Amortization.TotalsReconcile | Backend/services/amortization.py:92-107 | `total_paid` is `money(amount + total interest)`, as the docstring promises |
| Amortization.PaidIsPrincipalPlusInterest | Backend/services/amortization.py:92 | over exact reals, `monthly_payment * term_months == amount + total_interest` |
| Amortization.ZeroRateHasNoInterest | Backend/services/amortization.py:84-95 | at rate zero the payment is `money(amount / n)` and no month accrues interest |
| Schemas.Validate | Backend/schemas.py:3-6 | accepted exactly when every field is present and not `null`, `amount > 0`, `0 <= rate <= 100` and `months` is a whole number above 0; otherwise the failing fields are reported |
| Schemas.NullFieldRejected | Backend/schemas.py:4-6 | a `null` or missing field is refused and reported under its own name, since every `Field(...)` is required and none is optional |
| Schemas.BodyField | Backend/schemas.py:4-6 | a field of the JSON body has a value exactly when it is a number, and that value is the number's exact value |
| Schemas.NaNFieldRejected | Frontend/src/api.js:6-10 | a field that `Number` turned into `NaN` is sent as `null` and the backend refuses the request under that field |
| Schemas.LoneDotAmountRejected | Frontend/src/api.js:2-10 | an amount field left as a lone `.` always ends in a refusal under `amount` |
| Schemas.FieldErrors | Backend/schemas.py:4-6 | each field is reported exactly when its own constraint fails |
| Schemas.AcceptedPassesGuards | Backend/schemas.py:4-6 | every validated request passes the guards of `calculate_french_amortization`, so its `ValueError` (a 422) cannot follow one |
| Schemas.SchemaMatchesGuards | Backend/schemas.py:4-6 | with an integral term, the schema and the guards accept exactly the same requests |
| Schemas.FractionalMonthsRejected | Backend/schemas.py:6 | a fractional term is refused and reported under `months`, as pydantic 2 does for an `int` field (pydantic 1 would truncate it) |

## Left out

- `Number(s)` is modelled only on text made of digits and dots, the only text
  the handlers produce. Signs, exponents, surrounding whitespace, `Infinity`
  and hexadecimal literals are not modelled: all of these read as `NaN` here.
- `String(n)` is modelled as the exact shortest positional rendering. The
  exponent form for very large or very small numbers is not modelled.
- IEEE-754 doubles are not modelled. JavaScript numbers are exact decimals,
  and the backend works over exact `real`s: there are no rounding errors
  before `money`, no `inf` and no `NaN`. On the backend `**` with a negative
  exponent becomes a division by an integer power.
- FormatForm.ClampNumberString: the bounds are non-negative whole numbers,
  which covers the one call site (0 and 100). Negative or fractional bounds
  are not modelled.
- Amortization.Money: the precision is given as a number of decimal places,
  not as a `Decimal` string. The `Decimal(str(value))` conversion and the final
  `float(...)` are not modelled.
- Amortization.ScheduleShape: the last balance is exactly 0 over reals. With
  doubles the loop leaves a rounding residue that grows with the amount. For
  small amounts `money` rounds it to `0.0` or `-0.0`. The schema accepts any
  amount above 0, though, and near 1e20 doubles are 16384 apart, so the last
  row's balance can be a visible non-zero figure.
- Amortization.CalculateFrenchAmortization: it succeeds on every input the
  guards accept, which the Python does not promise. Two failures escape the
  guards there and are not modelled. First, `Decimal.quantize` in `money`
  raises `InvalidOperation` once a figure reaches 10^26, because the default
  context keeps 28 digits; amount `1e26`, rate `0`, term `1` ends in a server
  error, not a 422. Second, for a positive rate below about 1e-13 the double
  `1 + r` equals `1.0`, so `1 - (1 + r) ** -n` is `0.0` and the payment divides
  by zero.
- `calculate_french_amortization`'s `isinstance` checks are not modelled.
  The argument types are `real` and `int`, so a non-number cannot be passed.
  The function's default arguments are not modelled either.
- Schemas.Validate: pydantic's lax coercions (numeric strings, booleans) and
  its error messages are not modelled. Only the names of the failing fields
  are kept. A JSON value that is neither a number nor `null` is read as no
  value, which the frontend never sends. The 422 body the framework writes
  (a `detail` list) is not modelled either; the frontend shows its string
  form.
- Schemas.FractionalMonthsRejected: assumes pydantic 2, whose `int` refuses
  12.5. The project does not pin the version, and pydantic 1 truncates to 12.
- The write of the form to `localStorage` (App.jsx:45-47) and the exact text
  that `JSON.stringify` produces are not modelled. The request body is
  modelled as a JSON value.
- All JSX rendering is left out, including `AmortizationTable` and
  `formatMoney`, because it is presentation through a locale library.
- `e.preventDefault()` and the React state setters are not modelled as
  effects. A submit's `await` is one atomic step, so a second submit cannot
  interleave with it.
- The toast library, the toast icons and the real `setTimeout` delay are left
  out. They are recorded as effects, not executed.
- Backend/main.py is not modelled beyond the envelope it answers with. Its
  routing, the database session and the background audit task are left out,
  and so are Backend/services/audit.py and Backend/models.py, whose random
  delays and ORM table carry no logic of the core.
