/**
 The French amortization of Backend/services/amortization.py, over exact
 reals: `money` (decimal quantisation with ties away from zero), the input
 guards in their fixed order, the constant payment, and the month-by-month
 recurrence of interest, principal and balance.
 */
module Amortization {
  import opened Wrappers
  import opened Numbers

  // ---------------------------------------------------------------------------
  // money
  // ---------------------------------------------------------------------------

  function Abs(x: real): (a: real)
    ensures a >= 0.0 && (a == x || a == -x)
  {
    if x < 0.0 then -x else x
  }

  /** `money`'s default precision, `"0.01"`: two decimal places. */
  const Cents: nat := 2

  /** `10^places`, the number of units in one. */
  function Scale(places: nat): (s: real)
    ensures s >= 1.0
  {
    Pow10(places) as real
  }

  /** The signed number of units of `10^-places` that `quantize` with
      ROUND_HALF_UP keeps: the magnitude is rounded to the nearest unit, a tie
      going up, and the sign is put back. */
  function RoundedUnits(x: real, places: nat): int {
    var q := (Abs(x) * Scale(places) + 0.5).Floor;
    if x < 0.0 then -q else q
  }

  /** `money(x, precision)` with the precision given as its number of decimal
      places: a whole number of units of the precision, within half a unit of `x`. */
  function Money(x: real, places: nat): (m: real)
    ensures m * Scale(places) == RoundedUnits(x, places) as real
    ensures Abs(m * Scale(places) - x * Scale(places)) <= 0.5
  {
    var s := Scale(places);
    var u := RoundedUnits(x, places);
    DivThenMul(u as real, s);
    ScaledSign(x, s);
    var y := Abs(x) * s;
    var q := (y + 0.5).Floor;
    assert y - 0.5 < q as real <= y + 0.5;
    u as real / s
  }

  lemma DivThenMul(a: real, s: real)
    requires s > 0.0
    ensures (a / s) * s == a
  {
  }

  lemma NegDiv(a: real, s: real)
    requires s > 0.0
    ensures (-a) / s == -(a / s)
  {
  }

  /** Scaling by a positive factor keeps the sign and commutes with `Abs`. */
  lemma ScaledSign(x: real, s: real)
    requires s > 0.0
    ensures x < 0.0 <==> x * s < 0.0
    ensures x == 0.0 <==> x * s == 0.0
    ensures Abs(x) * s == Abs(x * s)
  {
    if x < 0.0 {
      assert (-x) * s > 0.0;
    } else if x > 0.0 {
      assert x * s > 0.0;
    }
  }

  lemma RoundedUnitsOdd(x: real, places: nat)
    ensures RoundedUnits(-x, places) == -RoundedUnits(x, places)
  {
    var y := Abs(x) * Scale(places);
    assert Abs(-x) * Scale(places) == y;
    if x == 0.0 {
      assert y == 0.0;
      assert (y + 0.5).Floor == 0;
    }
  }

  /** Rounding is symmetric: `money(-x) == -money(x)`. */
  lemma MoneyOdd(x: real, places: nat)
    ensures Money(-x, places) == -Money(x, places)
  {
    RoundedUnitsOdd(x, places);
    NegDiv(RoundedUnits(x, places) as real, Scale(places));
  }

  /** A value that is already a whole number of units is kept as it is. */
  lemma MoneyExact(x: real, places: nat, k: int)
    requires x * Scale(places) == k as real
    ensures Money(x, places) == x
  {
    var s := Scale(places);
    ScaledSign(x, s);
    assert Abs(x) * s == Abs(k as real);
    assert (Abs(k as real) + 0.5).Floor == if k < 0 then -k else k;
    assert RoundedUnits(x, places) == k;
    assert k as real / s == x;
  }

  /** `money(money(x)) == money(x)`. */
  lemma MoneyIdempotent(x: real, places: nat)
    ensures Money(Money(x, places), places) == Money(x, places)
  {
    MoneyExact(Money(x, places), places, RoundedUnits(x, places));
  }

  /** A value exactly half way between two units is rounded away from zero. */
  lemma MoneyTiesAwayFromZero(x: real, places: nat, k: nat)
    requires Abs(x) * Scale(places) == k as real + 0.5
    ensures Abs(Money(x, places)) * Scale(places) == (k + 1) as real
  {
    var s, m, u := Scale(places), Money(x, places), RoundedUnits(x, places);
    TieUnits(x, places, k);
    assert m * s == u as real;
    ScaledSign(m, s);
    assert Abs(m) * s == Abs(u as real);
  }

  /** At a tie the magnitude is rounded up to the next unit. */
  lemma TieUnits(x: real, places: nat, k: nat)
    requires Abs(x) * Scale(places) == k as real + 0.5
    ensures RoundedUnits(x, places) == k + 1 || RoundedUnits(x, places) == -(k + 1)
  {
    assert (Abs(x) * Scale(places) + 0.5).Floor == k + 1;
  }

  // ---------------------------------------------------------------------------
  // Guards
  // ---------------------------------------------------------------------------

  const AmountError := "Amount must be a number greater than 0"
  const RateError := "The annual rate must be a number between 0 and 100"
  const MonthsError := "Payment periods must be an integer greater than 0"

  predicate ValidInputs(amount: real, annualRate: real, termMonths: int) {
    amount > 0.0 && 0.0 <= annualRate <= 100.0 && termMonths > 0
  }

  // ---------------------------------------------------------------------------
  // Payment and recurrence
  // ---------------------------------------------------------------------------

  function Pow(x: real, n: nat): real {
    if n == 0 then 1.0 else x * Pow(x, n - 1)
  }

  lemma {:induction false} PowAboveOne(x: real, n: nat)
    requires x > 1.0 && n >= 1
    ensures Pow(x, n) > 1.0
  {
    if n > 1 {
      PowAboveOne(x, n - 1);
      assert x * Pow(x, n - 1) > 1.0 * Pow(x, n - 1);
    }
  }

  /** `(annual_rate / 100) / 12`. */
  function MonthRate(annualRate: real): (r: real)
    ensures r * 1200.0 == annualRate
    ensures 0.0 <= annualRate <= 100.0 ==> 0.0 <= r <= 1.0 / 12.0
    ensures r == 0.0 <==> annualRate == 0.0
  {
    annualRate / 100.0 / 12.0
  }

  /** The discount factor `1 - (1 + r)^-n` of a positive rate is positive. */
  lemma DiscountPositive(r: real, n: nat)
    requires r > 0.0 && n >= 1
    ensures Pow(1.0 + r, n) > 1.0 && 1.0 - 1.0 / Pow(1.0 + r, n) > 0.0
  {
    PowAboveOne(1.0 + r, n);
    var q := Pow(1.0 + r, n);
    assert 1.0 / q < 1.0;
  }

  /** The discount factor `1 - (1 + r)^-n`. */
  function Discount(r: real, n: nat): (d: real)
    requires r > 0.0 && n >= 1
    ensures d > 0.0
  {
    DiscountPositive(r, n);
    1.0 - 1.0 / Pow(1.0 + r, n)
  }

  /** The fixed monthly payment: the principal spread evenly when the rate is
      zero, the annuity `L * r / (1 - (1 + r)^-n)` otherwise. */
  function Payment(amount: real, r: real, n: nat): (p: real)
    requires r >= 0.0 && n >= 1
    ensures r == 0.0 ==> p * n as real == amount
    ensures r > 0.0 ==> p * Discount(r, n) == amount * r
    ensures amount > 0.0 ==> p > 0.0
  {
    if r == 0.0 then
      EvenSpread(amount, n);
      amount / n as real
    else
      Annuity(amount, r, Discount(r, n));
      amount * (r / Discount(r, n))
  }

  /** `L / n` paid `n` times is `L`. */
  lemma EvenSpread(amount: real, n: nat)
    requires n >= 1
    ensures (amount / n as real) * n as real == amount
    ensures amount > 0.0 ==> amount / n as real > 0.0
  {
    DivThenMul(amount, n as real);
  }

  /** `L (r / d)` is the payment whose discounted value `p d` is `L r`. */
  lemma Annuity(amount: real, r: real, d: real)
    requires r > 0.0 && d > 0.0
    ensures amount * (r / d) * d == amount * r
    ensures amount > 0.0 ==> amount * (r / d) > 0.0
  {
    DivThenMul(r, d);
    assert amount * (r / d) * d == amount * ((r / d) * d);
  }

  /** One row of the schedule. */
  datatype Row = Row(month: int, payment: real, interest: real, principal: real, balance: real)

  /** Rows from month `m + 1` on, the interest they accrue, and the balance they leave. */
  datatype Run = Run(rows: seq<Row>, totalInterest: real, balance: real)

  /** The loop of `calculate_french_amortization` from iteration `m` on, with
      `balance` outstanding, on exact figures: each row's figures are rounded
      only when the row is stored (`RoundRow`), never fed back. */
  function ExactRun(balance: real, r: real, p: real, m: nat, n: nat): (run: Run)
    ensures |run.rows| == if m <= n then n - m else 0
    ensures forall k :: 0 <= k < |run.rows| ==>
              run.rows[k].month == m + k + 1 && run.rows[k].payment == p &&
              run.rows[k].interest + run.rows[k].principal == p
    decreases n - m
  {
    if m >= n then Run([], 0.0, balance)
    else
      var interest := balance * r;
      var principal := p - interest;
      var rest := ExactRun(balance - principal, r, p, m + 1, n);
      Run([Row(m + 1, p, interest, principal, balance - principal)] + rest.rows,
          interest + rest.totalInterest,
          rest.balance)
  }

  /** A stored row: every figure through `money`. */
  function RoundRow(row: Row): Row {
    Row(row.month, Money(row.payment, Cents), Money(row.interest, Cents),
        Money(row.principal, Cents), Money(row.balance, Cents))
  }

  function RoundRows(rows: seq<Row>): (rounded: seq<Row>)
    ensures |rounded| == |rows|
  {
    seq(|rows|, k requires 0 <= k < |rows| => RoundRow(rows[k]))
  }

  /** The exact balance after `k` payments, starting from `b`. */
  function Balance(b: real, r: real, p: real, k: nat): real
    decreases k
  {
    if k == 0 then b else Balance(b - (p - b * r), r, p, k - 1)
  }

  /** Row `k` of a run that started with balance `b`: interest on the
      outstanding balance, the rest of the payment as principal, and the
      balance reduced by it. */
  predicate RowOfMonth(row: Row, b: real, r: real, p: real, month: nat, k: nat) {
    row == Row(month, p, Balance(b, r, p, k) * r, p - Balance(b, r, p, k) * r, Balance(b, r, p, k + 1))
  }

  /** The run has one row per remaining month, numbered upwards from `m + 1`,
      each following the recurrence, and leaves the recurrence's final balance. */
  lemma {:induction false} ExactRunFollowsRecurrence(b: real, r: real, p: real, m: nat, n: nat)
    requires m <= n
    ensures var run := ExactRun(b, r, p, m, n);
            && |run.rows| == n - m
            && run.balance == Balance(b, r, p, n - m)
            && (forall k :: 0 <= k < |run.rows| ==> RowOfMonth(run.rows[k], b, r, p, m + k + 1, k))
    decreases n - m
  {
    if m < n {
      var b' := b - (p - b * r);
      ExactRunFollowsRecurrence(b', r, p, m + 1, n);
      var run := ExactRun(b, r, p, m, n);
      var rest := ExactRun(b', r, p, m + 1, n);
      assert run.rows == [Row(m + 1, p, b * r, p - b * r, b')] + rest.rows;
      assert Balance(b, r, p, n - m) == Balance(b', r, p, n - m - 1);
      forall k | 0 <= k < |run.rows|
        ensures RowOfMonth(run.rows[k], b, r, p, m + k + 1, k)
      {
        if k == 0 {
          assert Balance(b, r, p, 1) == Balance(b', r, p, 0);
        } else {
          assert run.rows[k] == rest.rows[k - 1];
          RowOfMonthShift(rest.rows[k - 1], b, r, p, m + k + 1, k - 1);
        }
      }
    }
  }

  /** Month `k` counted from the balance after one payment is month `k + 1`
      counted from the balance before it. */
  lemma RowOfMonthShift(row: Row, b: real, r: real, p: real, month: nat, k: nat)
    requires RowOfMonth(row, b - (p - b * r), r, p, month, k)
    ensures RowOfMonth(row, b, r, p, month, k + 1)
  {
    assert Balance(b, r, p, k + 1) == Balance(b - (p - b * r), r, p, k);
    assert Balance(b, r, p, k + 2) == Balance(b - (p - b * r), r, p, k + 1);
  }

  /** Every payment either pays interest or reduces the balance:
      accrued interest plus the opening balance equals the payments plus the
      closing balance. */
  lemma {:induction false} ExactRunAccounting(b: real, r: real, p: real, m: nat, n: nat)
    requires m <= n
    ensures ExactRun(b, r, p, m, n).totalInterest + b == (n - m) as real * p + ExactRun(b, r, p, m, n).balance
    decreases n - m
  {
    if m < n {
      ExactRunAccounting(b - (p - b * r), r, p, m + 1, n);
      assert (n - m) as real * p == (n - m - 1) as real * p + p;
    }
  }

  // ---------------------------------------------------------------------------
  // The closed form of the balance
  // ---------------------------------------------------------------------------

  /** `1 + q + ... + q^(k-1)`. */
  function Geo(q: real, k: nat): real {
    if k == 0 then 0.0 else Geo(q, k - 1) + Pow(q, k - 1)
  }

  lemma {:induction false} GeoTimesRate(r: real, k: nat)
    ensures r * Geo(1.0 + r, k) == Pow(1.0 + r, k) - 1.0
  {
    if k > 0 {
      GeoTimesRate(r, k - 1);
      var q := 1.0 + r;
      var g, pk := Geo(q, k - 1), Pow(q, k - 1);
      assert r * (g + pk) == r * g + r * pk;
      assert Pow(q, k) == q * pk == pk + r * pk;
    }
  }

  /** After `k` payments the balance is `b q^k - p (1 + q + ... + q^(k-1))`. */
  lemma {:induction false} BalanceClosedForm(b: real, r: real, p: real, k: nat)
    ensures Balance(b, r, p, k) == b * Pow(1.0 + r, k) - p * Geo(1.0 + r, k)
    decreases k
  {
    var q := 1.0 + r;
    if k > 0 {
      var b' := b - (p - b * r);
      BalanceClosedForm(b', r, p, k - 1);
      assert b' == b * q - p;
      ClosedFormStep(b, q, p, Pow(q, k - 1), Geo(q, k - 1));
    }
  }

  /** One more month multiplies the principal term by `q` and adds `q^(k-1)`
      to the sum of payments. */
  lemma ClosedFormStep(b: real, q: real, p: real, pk: real, g: real)
    ensures (b * q - p) * pk - p * g == b * (q * pk) - p * (g + pk)
  {
  }

  /** With a zero rate the balance falls by the payment each month. */
  lemma {:induction false} BalanceAtZeroRate(b: real, p: real, k: nat)
    ensures Balance(b, 0.0, p, k) == b - k as real * p
    decreases k
  {
    if k > 0 {
      BalanceAtZeroRate(b - p, p, k - 1);
    }
  }

  /** The payment of `calculate_french_amortization` retires the loan exactly
      in the last month. */
  lemma FinalBalanceIsZero(amount: real, r: real, n: nat)
    requires r >= 0.0 && n >= 1
    ensures Balance(amount, r, Payment(amount, r, n), n) == 0.0
  {
    if r == 0.0 {
      EvenPaymentsRetire(amount, Payment(amount, r, n), n);
    } else {
      AnnuityPaymentsRetire(amount, r, Payment(amount, r, n), n);
    }
  }

  lemma EvenPaymentsRetire(amount: real, p: real, n: nat)
    requires p * n as real == amount
    ensures Balance(amount, 0.0, p, n) == 0.0
  {
    BalanceAtZeroRate(amount, p, n);
  }

  lemma AnnuityPaymentsRetire(amount: real, r: real, p: real, n: nat)
    requires r > 0.0 && n >= 1 && p * Discount(r, n) == amount * r
    ensures Balance(amount, r, p, n) == 0.0
  {
    var q := Pow(1.0 + r, n);
    var g := Geo(1.0 + r, n);
    DiscountPositive(r, n);
    assert p * (1.0 - 1.0 / q) == amount * r;
    BalanceClosedForm(amount, r, p, n);
    GeoTimesRate(r, n);
    AnnuityRetires(amount, r, p, q, g);
  }

  /** A payment whose discounted value `p (1 - 1/q)` is `L r` pays off the
      compounded loan: `n` payments accumulated, `p (1 + q' + ... )`, equal `L q`. */
  lemma AnnuityRetires(amount: real, r: real, p: real, q: real, g: real)
    requires r > 0.0 && q > 1.0 && r * g == q - 1.0
    requires p * (1.0 - 1.0 / q) == amount * r
    ensures p * g == amount * q
  {
    assert (1.0 - 1.0 / q) * q == q - 1.0;
    assert p * (q - 1.0) == amount * r * q;
    assert r * (p * g) == r * (amount * q);
  }


  // ---------------------------------------------------------------------------
  // calculate_french_amortization
  // ---------------------------------------------------------------------------

  datatype Amortization = Amortization(monthlyPayment: real, totalPaid: real, totalInterest: real, schedule: seq<Row>)

  /** The exact run of the loop at monthly rate `r` over `n` months. */
  function Schedule(amount: real, r: real, n: nat): Run
    requires r >= 0.0 && n >= 1
  {
    ExactRun(amount, r, Payment(amount, r, n), 0, n)
  }

  /** What `calculate_french_amortization` computes once the guards pass, at
      monthly rate `r`: the rounded payment and totals, and the rounded rows. */
  function Amortize(amount: real, r: real, n: nat): (a: Amortization)
    requires r >= 0.0 && n >= 1
    ensures |a.schedule| == n
    ensures forall k :: 0 <= k < |a.schedule| ==>
              a.schedule[k].month == k + 1 && a.schedule[k].payment == a.monthlyPayment
  {
    var p := Payment(amount, r, n);
    var run := Schedule(amount, r, n);
    Amortization(Money(p, Cents), Money(p * n as real, Cents), Money(run.totalInterest, Cents), RoundRows(run.rows))
  }

  /** `calculate_french_amortization`: the first failing guard decides the
      error; otherwise the figures at the monthly rate `annual_rate / 100 / 12`.
      Over exact reals and unbounded decimals the guards are the only source
      of failure: the decimal overflow at 10^26 and the floating-point
      division by zero for tiny rates are outside the model. */
  function CalculateFrenchAmortization(amount: real, annualRate: real, termMonths: int): (res: Result<Amortization, string>)
    ensures amount <= 0.0 ==> res == Err(AmountError)
    ensures amount > 0.0 && (annualRate < 0.0 || annualRate > 100.0) ==> res == Err(RateError)
    ensures amount > 0.0 && 0.0 <= annualRate <= 100.0 && termMonths <= 0 ==> res == Err(MonthsError)
    ensures res.Ok? <==> ValidInputs(amount, annualRate, termMonths)
    ensures res.Ok? ==> res.value == Amortize(amount, MonthRate(annualRate), termMonths)
    ensures res.Ok? ==> |res.value.schedule| == termMonths
  {
    if amount <= 0.0 then Err(AmountError)
    else if annualRate < 0.0 || annualRate > 100.0 then Err(RateError)
    else if termMonths <= 0 then Err(MonthsError)
    else Ok(Amortize(amount, MonthRate(annualRate), termMonths))
  }

  /** The schedule has one row per month, numbered 1 to `n` in order, every
      one paying the returned monthly payment, and the last row leaves
      nothing owed. */
  lemma ScheduleShape(amount: real, r: real, n: nat)
    requires r >= 0.0 && n >= 1
    ensures var a := Amortize(amount, r, n);
            && (forall k :: 0 <= k < |a.schedule| ==> a.schedule[k].month == k + 1)
            && (forall k :: 0 <= k < |a.schedule| ==> a.schedule[k].payment == a.monthlyPayment)
            && a.schedule[n - 1].balance == 0.0
  {
    var p := Payment(amount, r, n);
    var run := Schedule(amount, r, n);
    ExactRunFollowsRecurrence(amount, r, p, 0, n);
    FinalBalanceIsZero(amount, r, n);
    assert RowOfMonth(run.rows[n - 1], amount, r, p, n, n - 1);
    assert run.rows[n - 1].balance == 0.0;
    MoneyExact(0.0, Cents, 0);
  }

  /** Each stored row is an exact row of the recurrence with every figure
      through `money`: interest on the balance outstanding after `k`
      payments of `p`, the rest of the payment as principal, and the balance
      after `k + 1` payments (see `BalanceStep`). */
  lemma RowsFollowRecurrence(amount: real, r: real, n: nat, p: real, k: nat)
    requires r >= 0.0 && n >= 1 && k < n && p == Payment(amount, r, n)
    ensures var exact := Schedule(amount, r, n).rows;
            && k < |exact|
            && Amortize(amount, r, n).schedule[k] == RoundRow(exact[k])
            && RowOfMonth(exact[k], amount, r, p, k + 1, k)
  {
    RowOfRun(amount, r, p, n, k);
  }

  lemma RowOfRun(b: real, r: real, p: real, n: nat, k: nat)
    requires k < n
    ensures k < |ExactRun(b, r, p, 0, n).rows| && RowOfMonth(ExactRun(b, r, p, 0, n).rows[k], b, r, p, k + 1, k)
  {
    ExactRunFollowsRecurrence(b, r, p, 0, n);
  }

  /** One more payment: the balance after `k + 1` months from that after `k`. */
  lemma {:induction false} BalanceStep(b: real, r: real, p: real, k: nat)
    ensures Balance(b, r, p, k + 1) == Balance(b, r, p, k) - (p - Balance(b, r, p, k) * r)
    decreases k
  {
    var next := b - (p - b * r);
    assert Balance(b, r, p, k + 1) == Balance(next, r, p, k);
    if k == 0 {
      assert Balance(next, r, p, 0) == next;
    } else {
      BalanceStep(next, r, p, k - 1);
      assert Balance(b, r, p, k) == Balance(next, r, p, k - 1);
    }
  }

  /** Over exact reals the totals reconcile: what is paid is the principal
      plus the interest, so `total_paid == money(amount + interest)`. */
  lemma TotalsReconcile(amount: real, r: real, n: nat)
    requires r >= 0.0 && n >= 1
    ensures var a := Amortize(amount, r, n);
            var interest := Schedule(amount, r, n).totalInterest;
            && a.totalInterest == Money(interest, Cents)
            && a.totalPaid == Money(amount + interest, Cents)
  {
    PaidIsPrincipalPlusInterest(amount, r, n);
  }

  /** The exact payments add up to the amount borrowed plus the interest accrued. */
  lemma PaidIsPrincipalPlusInterest(amount: real, r: real, n: nat)
    requires r >= 0.0 && n >= 1
    ensures var p := Payment(amount, r, n);
            p * n as real == amount + ExactRun(amount, r, p, 0, n).totalInterest
  {
    var p := Payment(amount, r, n);
    ExactRunAccounting(amount, r, p, 0, n);
    ExactRunFollowsRecurrence(amount, r, p, 0, n);
    FinalBalanceIsZero(amount, r, n);
  }

  /** With a zero rate the payment is the amount spread evenly and no month accrues interest. */
  lemma ZeroRateHasNoInterest(amount: real, n: nat)
    requires n >= 1
    ensures var a := Amortize(amount, 0.0, n);
            && a.monthlyPayment == Money(amount / n as real, Cents)
            && a.totalInterest == 0.0
            && (forall k :: 0 <= k < |a.schedule| ==> a.schedule[k].interest == 0.0)
  {
    var p := Payment(amount, 0.0, n);
    var run := Schedule(amount, 0.0, n);
    ExactRunFollowsRecurrence(amount, 0.0, p, 0, n);
    ZeroRateAccruesNothing(amount, p, 0, n);
    MoneyExact(0.0, Cents, 0);
    forall k | 0 <= k < |run.rows|
      ensures run.rows[k].interest == 0.0
    {
      assert RowOfMonth(run.rows[k], amount, 0.0, p, k + 1, k);
    }
  }

  lemma {:induction false} ZeroRateAccruesNothing(b: real, p: real, m: nat, n: nat)
    ensures ExactRun(b, 0.0, p, m, n).totalInterest == 0.0
    decreases n - m
  {
    if m < n {
      ZeroRateAccruesNothing(b - (p - b * 0.0), p, m + 1, n);
    }
  }
}
