/**
 * The integer and calendar arithmetic of the external-financing handlers:
 * the interest payment schedule of one debt (`handle_interest_payment`) and
 * the grouping of debts by maturity year (`handle_debt_maturity`).
 *
 * The debt tables are parameters, and "now" is a parameter. A `Date` stands
 * for a parsed `datetime`, so the tables' dates are valid ones.
 */
module Financing {
  import opened Wrappers
  import opened OrderedDict
  import opened Values
  import opened Strings
  import opened Sorting
  import opened Dates

  // ---------------------------------------------------------------------------
  // Periods.

  /**
   * A period such as "3y" as a number of years; any other text, or digits
   * `int()` rejects, gives `default`. None is the AttributeError `endswith`
   * raises on a value that is not a string.
   */
  function ParseYears(period: Value, default: int): Option<int> {
    if !period.VStr? then None
    else if !EndsWith(period.s, "y") then Some(default)
    else
      var n := ParseInt(period.s[..|period.s| - 1]);
      Some(if n.Some? then n.value else default)
  }

  /** "Ny" reads back as N, and a text not ending in "y" as the default. */
  lemma ParseYearsSpec(n: int, s: string, default: int)
    ensures ParseYears(VStr(IntToString(n) + "y"), default) == Some(n)
    ensures !EndsWith(s, "y") ==> ParseYears(VStr(s), default) == Some(default)
  {
    var t := IntToString(n) + "y";
    assert t[|t| - 1..] == "y";
    assert t[..|t| - 1] == IntToString(n);
    ParseIntToString(n);
  }

  /** The day number of now plus `365 * years` days; None is the OverflowError past the calendar's range. */
  function Horizon(now: Date, years: int): (h: Option<int>)
    requires Valid(now)
    ensures h.Some? <==> 1 <= Ordinal(now) + 365 * years <= LastOrdinal()
    ensures h.Some? ==> h.value == Ordinal(now) + 365 * years
  {
    var h := Ordinal(now) + 365 * years;
    if 1 <= h <= LastOrdinal() then Some(h) else None
  }

  // ---------------------------------------------------------------------------
  // Payment dates.

  /** Payments a year per frequency; an unknown frequency counts as quarterly. */
  function PaymentsPerYear(frequency: string): nat {
    if frequency == "monthly" then 12
    else if frequency == "quarterly" then 4
    else if frequency == "semi-annual" then 2
    else if frequency == "annual" then 1
    else if frequency == "at maturity" then 1
    else 4
  }

  /** How many months one step advances; an unknown frequency does not move the date. */
  function StepMonths(frequency: string): nat {
    if frequency == "monthly" then 1
    else if frequency == "quarterly" then 3
    else if frequency == "semi-annual" then 6
    else if frequency == "annual" then 12
    else 0
  }

  /** Advancing `(month - 1 + k)` months, carrying whole years. */
  function ShiftMonths(d: Date, k: int): Option<Date> {
    Make(d.year + (d.month - 1 + k) / 12, (d.month - 1 + k) % 12 + 1, d.day)
  }

  /**
   * The move to the next payment date: monthly sets the month to
   * `month % 12 + 1` and then bumps the year on reaching January; quarterly
   * and semi-annual shift by 3 and 6 months; annual bumps the year; any
   * other frequency leaves the date alone. None is the ValueError of a day
   * the new month does not have.
   */
  function Step(frequency: string, d: Date): Option<Date> {
    if frequency == "monthly" then
      match Make(d.year, d.month % 12 + 1, d.day)
      case None => None
      case Some(e) => if e.month == 1 then Make(e.year + 1, e.month, e.day) else Some(e)
    else if frequency == "quarterly" then ShiftMonths(d, 3)
    else if frequency == "semi-annual" then ShiftMonths(d, 6)
    else if frequency == "annual" then Make(d.year + 1, d.month, d.day)
    else Some(d)
  }

  lemma DivideYears(y: int, x: int)
    requires 0 <= x
    ensures (y * 12 + x) / 12 == y + x / 12 && (y * 12 + x) % 12 == x % 12
  {
  }

  lemma ShiftIsMonthShift(d: Date, k: nat)
    requires Valid(d)
    ensures var e := AtMonthIndex(MonthIndex(d) + k, d.day);
      ShiftMonths(d, k) == if Valid(e) then Some(e) else None
  {
    var x := d.month - 1 + k;
    var index := MonthIndex(d) + k;
    assert index == d.year * 12 + x;
    DivideYears(d.year, x);
    assert AtMonthIndex(index, d.day) == Date(d.year + x / 12, x % 12 + 1, d.day);
    assert ShiftMonths(d, k) == Make(d.year + x / 12, x % 12 + 1, d.day);
  }

  lemma MonthlyIsMonthShift(d: Date)
    requires Valid(d)
    ensures var e := AtMonthIndex(MonthIndex(d) + 1, d.day);
      Step("monthly", d) == if Valid(e) then Some(e) else None
  {
    DivideYears(d.year, d.month);
    if d.month == 12 {
      assert Make(d.year, 1, d.day).Some?;
    }
  }

  lemma AnnualIsMonthShift(d: Date)
    requires Valid(d)
    ensures var e := AtMonthIndex(MonthIndex(d) + 12, d.day);
      Step("annual", d) == if Valid(e) then Some(e) else None
  {
    DivideYears(d.year + 1, d.month - 1);
  }

  /**
   * Every frequency moves the date by a whole number of months and keeps the
   * day: the step is the date `StepMonths` months on, when that date exists.
   */
  lemma StepIsMonthShift(frequency: string, d: Date)
    requires Valid(d)
    ensures var e := AtMonthIndex(MonthIndex(d) + StepMonths(frequency), d.day);
      Step(frequency, d) == if Valid(e) then Some(e) else None
  {
    if frequency == "monthly" {
      MonthlyIsMonthShift(d);
    } else if frequency == "quarterly" || frequency == "semi-annual" {
      ShiftIsMonthShift(d, StepMonths(frequency));
    } else if frequency == "annual" {
      AnnualIsMonthShift(d);
    } else {
      StayIsMonthShift(d);
    }
  }

  lemma StayIsMonthShift(d: Date)
    requires Valid(d)
    ensures AtMonthIndex(MonthIndex(d), d.day) == d
  {
    DivideYears(d.year, d.month - 1);
  }

  /** A step that succeeds lands strictly later, in a valid month, on the same day. */
  lemma StepAdvances(frequency: string, d: Date)
    requires Valid(d) && Step(frequency, d).Some?
    ensures var e := Step(frequency, d).value;
      && Valid(e) && e.day == d.day
      && MonthIndex(e) == MonthIndex(d) + StepMonths(frequency)
      && (StepMonths(frequency) > 0 ==> Before(d, e))
  {
    StepIsMonthShift(frequency, d);
    var e := Step(frequency, d).value;
    if StepMonths(frequency) > 0 {
      MonthIndexBefore(d, e);
    }
  }

  /**
   * The dates of `count` interest payments from `d`. "at maturity" stops
   * after one; otherwise the date is stepped after every payment, the last
   * one included.
   */
  function PaymentDates(frequency: string, d: Date, count: int): Option<seq<Date>>
    decreases count
  {
    if count <= 0 then Some([])
    else if frequency == "at maturity" then Some([d])
    else
      match Step(frequency, d)
      case None => None
      case Some(next) =>
        match PaymentDates(frequency, next, count - 1)
        case None => None
        case Some(rest) => Some([d] + rest)
  }

  /** How many interest payments `count` requested ones turn into. */
  function PaymentCount(frequency: string, count: int): nat {
    if count <= 0 then 0 else if frequency == "at maturity" then 1 else count
  }

  /**
   * The i-th payment date is `i` steps on from the first: same day, month
   * index advanced by `i * StepMonths`.
   */
  lemma {:induction false} PaymentDatesSpec(frequency: string, d: Date, count: int)
    requires Valid(d)
    ensures var r := PaymentDates(frequency, d, count);
      r.Some? ==>
        && |r.value| == PaymentCount(frequency, count)
        && forall i :: 0 <= i < |r.value| ==>
             Valid(r.value[i]) && r.value[i].day == d.day
             && MonthIndex(r.value[i]) == MonthIndex(d) + i * StepMonths(frequency)
    decreases count
  {
    if count > 0 && frequency != "at maturity" && Step(frequency, d).Some? {
      var next := Step(frequency, d).value;
      StepAdvances(frequency, d);
      PaymentDatesSpec(frequency, next, count - 1);
      var r := PaymentDates(frequency, d, count);
      if r.Some? {
        var rest := PaymentDates(frequency, next, count - 1).value;
        assert r.value == [d] + rest;
        forall i | 0 < i < |r.value|
          ensures MonthIndex(r.value[i]) == MonthIndex(d) + i * StepMonths(frequency)
        {
          assert r.value[i] == rest[i - 1];
          assert (i - 1) * StepMonths(frequency) + StepMonths(frequency) == i * StepMonths(frequency);
        }
      }
    }
  }

  /** With a moving frequency the payment dates strictly increase. */
  lemma PaymentDatesIncrease(frequency: string, d: Date, count: int)
    requires Valid(d) && StepMonths(frequency) > 0
    requires PaymentDates(frequency, d, count).Some?
    ensures var ds := PaymentDates(frequency, d, count).value;
      forall i, j :: 0 <= i < j < |ds| ==> Before(ds[i], ds[j])
  {
    PaymentDatesSpec(frequency, d, count);
    var ds := PaymentDates(frequency, d, count).value;
    forall i, j | 0 <= i < j < |ds| ensures Before(ds[i], ds[j]) {
      assert i * StepMonths(frequency) < j * StepMonths(frequency);
      MonthIndexBefore(ds[i], ds[j]);
    }
  }

  /**
   * A schedule on a day every month has (the 28th or earlier) cannot fail,
   * as long as the last step stays within the calendar.
   */
  lemma {:induction false} PaymentDatesDefined(frequency: string, d: Date, count: int)
    requires Valid(d) && d.day <= 28
    requires MonthIndex(d) + count * StepMonths(frequency) <= MaxYear * 12 + 11
    ensures PaymentDates(frequency, d, count).Some?
    decreases count
  {
    if count > 0 && frequency != "at maturity" {
      StepIsMonthShift(frequency, d);
      var e := AtMonthIndex(MonthIndex(d) + StepMonths(frequency), d.day);
      assert Valid(e);
      PaymentDatesDefined(frequency, e, count - 1);
    }
  }

  // ---------------------------------------------------------------------------
  // The schedule of one debt.

  datatype PaymentKind = Interest | Principal

  datatype Payment = Payment(date: Date, amount: real, currency: string, kind: PaymentKind)

  /** A debt of the interest table. */
  datatype ServicedDebt = ServicedDebt(
    name: string, kind: string, outstanding: int, currency: string, maturity: Date,
    rateType: string, rate: real, frequency: string, nextPayment: Date, annualInterest: int)

  /** The schedule's sort key: the ISO text of the date. */
  predicate ByDate(p: Payment, q: Payment) {
    StrLe(Iso(p.date), Iso(q.date))
  }

  function InterestAmount(p: Payment): real {
    if p.kind == Interest then p.amount else 0.0
  }

  function PrincipalAmount(p: Payment): real {
    if p.kind == Principal then p.amount else 0.0
  }

  datatype Schedule = Schedule(payments: seq<Payment>, totalInterest: real, totalPrincipal: real)

  /** One interest payment: the annual interest spread over the year's payments. */
  function Instalment(debt: ServicedDebt): real {
    debt.annualInterest as real / PaymentsPerYear(debt.frequency) as real
  }

  /** The interest payments, in the order they were generated. */
  function InterestPayments(debt: ServicedDebt, dates: seq<Date>): (ps: seq<Payment>)
    ensures |ps| == |dates|
  {
    var amount := Instalment(debt);
    seq(|dates|, i requires 0 <= i < |dates| => Payment(dates[i], amount, debt.currency, Interest))
  }

  /** The principal repayment, when the debt matures by the horizon. */
  function PrincipalPayments(debt: ServicedDebt, horizon: int): seq<Payment>
    requires Valid(debt.maturity)
  {
    if Ordinal(debt.maturity) <= horizon then [Payment(debt.maturity, debt.outstanding as real, debt.currency, Principal)]
    else []
  }

  /** The schedule of one debt over `years`. */
  function PaymentSchedule(debt: ServicedDebt, years: int, now: Date): Result<Schedule>
    requires Valid(now) && Valid(debt.maturity)
  {
    match PaymentDates(debt.frequency, debt.nextPayment, PaymentsPerYear(debt.frequency) * years)
    case None => Err("day is out of range for month")
    case Some(dates) =>
      match Horizon(now, years)
      case None => Err("date value out of range")
      case Some(h) => Ok(Assemble(debt, dates, h))
  }

  /** The interest payments and the principal due by `horizon`, sorted by date and totalled. */
  function Assemble(debt: ServicedDebt, dates: seq<Date>, horizon: int): Schedule
    requires Valid(debt.maturity)
  {
    var payments := SortBy(InterestPayments(debt, dates) + PrincipalPayments(debt, horizon), ByDate);
    Schedule(payments, SumOf(payments, InterestAmount), SumOf(payments, PrincipalAmount))
  }

  lemma ByDateIsOrder()
    ensures Total(ByDate) && Transitive(ByDate)
  {
    forall p, q ensures ByDate(p, q) || ByDate(q, p) {
      StrLeTotal(Iso(p.date), Iso(q.date));
    }
    forall p, q, r | ByDate(p, q) && ByDate(q, r) ensures ByDate(p, r) {
      StrLeTransitive(Iso(p.date), Iso(q.date), Iso(r.date));
    }
  }

  /** `n` payments of `a` each, added up one by one as the totals are. */
  function Times(n: nat, a: real): real {
    if n == 0 then 0.0 else a + Times(n - 1, a)
  }

  lemma {:induction false} TimesIsProduct(n: nat, a: real)
    ensures Times(n, a) == n as real * a
  {
    if n > 0 {
      TimesIsProduct(n - 1, a);
    }
  }

  lemma {:induction false} SumOfKind(ps: seq<Payment>, kind: PaymentKind, amount: real)
    requires forall i :: 0 <= i < |ps| ==> ps[i].kind == kind && ps[i].amount == amount
    ensures SumOf(ps, InterestAmount) == if kind == Interest then Times(|ps|, amount) else 0.0
    ensures SumOf(ps, PrincipalAmount) == if kind == Principal then Times(|ps|, amount) else 0.0
  {
    if |ps| > 0 {
      SumOfKind(ps[1..], kind, amount);
    }
  }


  /** Sorting payments with valid dates by their ISO text puts them in date order. */
  lemma SortedByDate(ps: seq<Payment>)
    requires forall i :: 0 <= i < |ps| ==> Valid(ps[i].date)
    ensures var sorted := SortBy(ps, ByDate);
      && SortedBy(sorted, ByDate)
      && multiset(sorted) == multiset(ps)
      && forall i, j :: 0 <= i < j < |sorted| ==> !Before(sorted[j].date, sorted[i].date)
  {
    var sorted := SortBy(ps, ByDate);
    ByDateIsOrder();
    SortBySpec(ps, ByDate);
    forall i, j | 0 <= i < j < |sorted| ensures !Before(sorted[j].date, sorted[i].date) {
      assert sorted[i] in multiset(ps) && sorted[j] in multiset(ps);
      IsoOrder(sorted[i].date, sorted[j].date);
    }
  }

  /** The totals of a reordering of the interest payments followed by the principal ones. */
  lemma ScheduleTotals(payments: seq<Payment>, interest: seq<Payment>, principal: seq<Payment>, amount: real, outstanding: real)
    requires multiset(payments) == multiset(interest + principal)
    requires forall i :: 0 <= i < |interest| ==> interest[i].kind == Interest && interest[i].amount == amount
    requires forall i :: 0 <= i < |principal| ==> principal[i].kind == Principal && principal[i].amount == outstanding
    ensures SumOf(payments, InterestAmount) == Times(|interest|, amount)
    ensures SumOf(payments, PrincipalAmount) == Times(|principal|, outstanding)
  {
    SumOfPermutation(payments, interest + principal, InterestAmount);
    SumOfPermutation(payments, interest + principal, PrincipalAmount);
    SumOfAppend(interest, principal, InterestAmount);
    SumOfAppend(interest, principal, PrincipalAmount);
    SumOfKind(interest, Interest, amount);
    SumOfKind(principal, Principal, outstanding);
  }

  /** A successful schedule is assembled from `PaymentCount` dates, all valid, and the horizon one year-count on. */
  lemma PaymentScheduleAssembled(debt: ServicedDebt, years: int, now: Date)
    requires Valid(now) && Valid(debt.maturity) && Valid(debt.nextPayment)
    requires PaymentSchedule(debt, years, now).Ok?
    ensures var count := PaymentsPerYear(debt.frequency) * years;
      && PaymentDates(debt.frequency, debt.nextPayment, count).Some?
      && Horizon(now, years).Some?
      && var dates := PaymentDates(debt.frequency, debt.nextPayment, count).value;
      && |dates| == PaymentCount(debt.frequency, count)
      && (forall i :: 0 <= i < |dates| ==> Valid(dates[i]))
      && PaymentSchedule(debt, years, now).value == Assemble(debt, dates, Ordinal(now) + 365 * years)
  {
    PaymentDatesSpec(debt.frequency, debt.nextPayment, PaymentsPerYear(debt.frequency) * years);
  }

  /** A schedule is in date order. */
  lemma PaymentScheduleSorted(debt: ServicedDebt, years: int, now: Date)
    requires Valid(now) && Valid(debt.maturity) && Valid(debt.nextPayment)
    requires PaymentSchedule(debt, years, now).Ok?
    ensures var ps := PaymentSchedule(debt, years, now).value.payments;
      && SortedBy(ps, ByDate)
      && forall i, j :: 0 <= i < j < |ps| ==> !Before(ps[j].date, ps[i].date)
  {
    PaymentScheduleAssembled(debt, years, now);
    var dates := PaymentDates(debt.frequency, debt.nextPayment, PaymentsPerYear(debt.frequency) * years).value;
    AssembleSorted(debt, dates, Ordinal(now) + 365 * years);
  }

  /**
   * A schedule holds one interest payment per payment date, plus the
   * principal exactly when the debt matures within the horizon.
   */
  lemma PaymentScheduleContents(debt: ServicedDebt, years: int, now: Date)
    requires Valid(now) && Valid(debt.maturity) && Valid(debt.nextPayment)
    requires PaymentSchedule(debt, years, now).Ok?
    ensures var ps := PaymentSchedule(debt, years, now).value.payments;
      var due := Ordinal(debt.maturity) <= Ordinal(now) + 365 * years;
      && |ps| == PaymentCount(debt.frequency, PaymentsPerYear(debt.frequency) * years) + (if due then 1 else 0)
      && (Payment(debt.maturity, debt.outstanding as real, debt.currency, Principal) in ps <==> due)
  {
    PaymentScheduleAssembled(debt, years, now);
    var dates := PaymentDates(debt.frequency, debt.nextPayment, PaymentsPerYear(debt.frequency) * years).value;
    AssembleContents(debt, dates, Ordinal(now) + 365 * years);
  }

  /** The totals: one instalment per payment date, and the outstanding amount when it falls due. */
  lemma PaymentScheduleTotals(debt: ServicedDebt, years: int, now: Date)
    requires Valid(now) && Valid(debt.maturity) && Valid(debt.nextPayment)
    requires PaymentSchedule(debt, years, now).Ok?
    ensures var s := PaymentSchedule(debt, years, now).value;
      var due := Ordinal(debt.maturity) <= Ordinal(now) + 365 * years;
      && s.totalInterest == Times(PaymentCount(debt.frequency, PaymentsPerYear(debt.frequency) * years), Instalment(debt))
      && s.totalPrincipal == if due then debt.outstanding as real else 0.0
  {
    PaymentScheduleAssembled(debt, years, now);
    var dates := PaymentDates(debt.frequency, debt.nextPayment, PaymentsPerYear(debt.frequency) * years).value;
    AssembleTotals(debt, dates, Ordinal(now) + 365 * years);
  }

  lemma AssembleSorted(debt: ServicedDebt, dates: seq<Date>, h: int)
    requires Valid(debt.maturity) && forall i :: 0 <= i < |dates| ==> Valid(dates[i])
    ensures var ps := Assemble(debt, dates, h).payments;
      && SortedBy(ps, ByDate)
      && forall i, j :: 0 <= i < j < |ps| ==> !Before(ps[j].date, ps[i].date)
  {
    var all: seq<Payment> := InterestPayments(debt, dates) + PrincipalPayments(debt, h);
    PaymentParts(debt, dates, h, Instalment(debt));
    SortedByDate(all);
  }

  lemma AssembleContents(debt: ServicedDebt, dates: seq<Date>, h: int)
    requires Valid(debt.maturity) && forall i :: 0 <= i < |dates| ==> Valid(dates[i])
    ensures var ps := Assemble(debt, dates, h).payments;
      && |ps| == |dates| + (if Ordinal(debt.maturity) <= h then 1 else 0)
      && (Payment(debt.maturity, debt.outstanding as real, debt.currency, Principal) in ps <==> Ordinal(debt.maturity) <= h)
  {
    var all: seq<Payment> := InterestPayments(debt, dates) + PrincipalPayments(debt, h);
    var ps := Assemble(debt, dates, h).payments;
    PaymentParts(debt, dates, h, Instalment(debt));
    SortedByDate(all);
    var p := Payment(debt.maturity, debt.outstanding as real, debt.currency, Principal);
    assert p in ps <==> p in multiset(all);
    assert |ps| == |multiset(ps)| == |all|;
  }

  lemma AssembleTotals(debt: ServicedDebt, dates: seq<Date>, h: int)
    requires Valid(debt.maturity) && forall i :: 0 <= i < |dates| ==> Valid(dates[i])
    ensures var s := Assemble(debt, dates, h);
      && s.totalInterest == Times(|dates|, Instalment(debt))
      && s.totalPrincipal == if Ordinal(debt.maturity) <= h then debt.outstanding as real else 0.0
  {
    var interest, principal := InterestPayments(debt, dates), PrincipalPayments(debt, h);
    var all: seq<Payment> := interest + principal;
    var s := Assemble(debt, dates, h);
    var amount := Instalment(debt);
    PaymentParts(debt, dates, h, amount);
    SortedByDate(all);
    ScheduleTotals(s.payments, interest, principal, amount, debt.outstanding as real);
    assert |principal| == 1 ==> Times(|principal|, debt.outstanding as real) == debt.outstanding as real;
  }

  /** The pieces a schedule is sorted from: dated, typed payments, the principal among them only when due. */
  lemma PaymentParts(debt: ServicedDebt, dates: seq<Date>, h: int, amount: real)
    requires Valid(debt.maturity) && forall i :: 0 <= i < |dates| ==> Valid(dates[i])
    requires amount == Instalment(debt)
    ensures var interest, principal := InterestPayments(debt, dates), PrincipalPayments(debt, h);
      var all := interest + principal;
      && (forall i :: 0 <= i < |all| ==> Valid(all[i].date))
      && (forall i :: 0 <= i < |interest| ==> interest[i].kind == Interest && interest[i].amount == amount)
      && (forall i :: 0 <= i < |principal| ==> principal[i].kind == Principal && principal[i].amount == debt.outstanding as real)
      && |principal| == (if Ordinal(debt.maturity) <= h then 1 else 0)
      && (Payment(debt.maturity, debt.outstanding as real, debt.currency, Principal) in all <==> Ordinal(debt.maturity) <= h)
  {
    var interest, principal := InterestPayments(debt, dates), PrincipalPayments(debt, h);
    var all := interest + principal;
    forall i | 0 <= i < |all| ensures Valid(all[i].date) {
      if i >= |interest| {
        assert all[i] == principal[i - |interest|];
      }
    }
    var p := Payment(debt.maturity, debt.outstanding as real, debt.currency, Principal);
    assert p !in interest;
  }

  /** The outcome of `handle_interest_payment` for one debt. */
  datatype InterestOutcome =
    | DebtNotFound(available: seq<string>)
    | DebtSchedule(debtId: string, schedule: Schedule)
    | PortfolioRequested

  /** Every date of the table is a parsed, valid one. */
  ghost predicate WellFormed(debts: seq<(string, ServicedDebt)>) {
    forall id :: Get(debts, id).Some? ==> Valid(Get(debts, id).value.maturity) && Valid(Get(debts, id).value.nextPayment)
  }

  /**
   * `handle_interest_payment`: a named debt's schedule, or the list of known
   * ids when the name is unknown; without a debt id the portfolio view is
   * asked for. Err is an exception the handler raises.
   */
  function InterestPayment(debts: seq<(string, ServicedDebt)>, debtId: Value, period: Value, now: Date): Result<InterestOutcome>
    requires WellFormed(debts) && Valid(now)
  {
    if !Truthy(debtId) then Ok(PortfolioRequested)
    else if !Hashable(debtId) then Err(Unhashable(debtId))
    else if !debtId.VStr? || Get(debts, debtId.s).None? then Ok(DebtNotFound(Keys(debts)))
    else
      var debt := Get(debts, debtId.s).value;
      match ParseYears(period, 1)
      case None => Err("'period' has no attribute 'endswith'")
      case Some(years) =>
        match PaymentSchedule(debt, years, now)
        case Err(e) => Err(e)
        case Ok(sched) => Ok(DebtSchedule(debtId.s, sched))
  }

  /** An unknown id lists every known id; a known one is scheduled under its own record. */
  lemma InterestPaymentSpec(debts: seq<(string, ServicedDebt)>, id: string, period: Value, now: Date)
    requires WellFormed(debts) && Valid(now) && id != ""
    ensures Get(debts, id).None? ==> InterestPayment(debts, VStr(id), period, now) == Ok(DebtNotFound(Keys(debts)))
    ensures Get(debts, id).Some? && period.VStr? ==>
      var r := PaymentSchedule(Get(debts, id).value, ParseYears(period, 1).value, now);
      InterestPayment(debts, VStr(id), period, now) == if r.Ok? then Ok(DebtSchedule(id, r.value)) else Err(r.error)
  {
  }

  /**
   * A non-empty list or dict as debt id raises the TypeError of the
   * membership test; an empty one asks for the portfolio.
   */
  lemma InterestPaymentUnhashable(debts: seq<(string, ServicedDebt)>, debtId: Value, period: Value, now: Date)
    requires WellFormed(debts) && Valid(now) && !Hashable(debtId)
    ensures Truthy(debtId) ==> InterestPayment(debts, debtId, period, now) == Err(Unhashable(debtId))
    ensures !Truthy(debtId) ==> InterestPayment(debts, debtId, period, now) == Ok(PortfolioRequested)
  {
  }

  // ---------------------------------------------------------------------------
  // Maturity grouping.

  /** A debt of the maturity table. */
  datatype Debt = Debt(name: string, kind: string, outstanding: int, currency: string, maturity: Date, rate: real)

  /** One year's share of the maturities. */
  datatype YearGroup = YearGroup(count: nat, total: int, byCurrency: seq<(string, int)>, debts: seq<string>)

  /** The year a debt matures in: the first four characters of its maturity date. */
  function YearKey(d: Debt): string {
    Iso(d.maturity)[..if Valid(d.maturity) then 4 else 0]
  }

  /** Adding one debt to its year's group, creating the group on first sight. */
  function AddDebt(groups: seq<(string, YearGroup)>, id: string, d: Debt): seq<(string, YearGroup)> {
    var g := GetOr(groups, YearKey(d), YearGroup(0, 0, [], []));
    var byCurrency := Set(g.byCurrency, d.currency, GetOr(g.byCurrency, d.currency, 0) + d.outstanding);
    Set(groups, YearKey(d), YearGroup(g.count + 1, g.total + d.outstanding, byCurrency, g.debts + [id]))
  }

  /** The groups after visiting the debts in order. */
  function GroupByYear(debts: seq<(string, Debt)>): seq<(string, YearGroup)> {
    if |debts| == 0 then []
    else AddDebt(GroupByYear(debts[..|debts| - 1]), debts[|debts| - 1].0, debts[|debts| - 1].1)
  }

  function GroupCount(g: YearGroup): int { g.count }
  function GroupTotal(g: YearGroup): int { g.total }
  function Amount(d: Debt): int { d.outstanding }

  /** Each group's currency split adds up to its total. */
  predicate Balanced(g: YearGroup) {
    SumValues(g.byCurrency, (a: int) => a) == g.total
  }

  /** `sum(outstanding_amount)`. */
  function TotalDebt(debts: seq<(string, Debt)>): int {
    SumValues(debts, Amount)
  }

  lemma {:induction false} TotalDebtLast(debts: seq<(string, Debt)>)
    requires |debts| > 0
    ensures TotalDebt(debts) == TotalDebt(debts[..|debts| - 1]) + debts[|debts| - 1].1.outstanding
  {
    if |debts| > 1 {
      TotalDebtLast(debts[1..]);
      assert debts[1..][..|debts[1..]| - 1] == debts[..|debts| - 1][1..];
    } else {
      assert debts[1..] == [] && debts[..0] == [];
    }
  }

  /** The group a debt joins, after it has joined. */
  function Joined(groups: seq<(string, YearGroup)>, id: string, d: Debt): YearGroup {
    var g := GetOr(groups, YearKey(d), YearGroup(0, 0, [], []));
    YearGroup(g.count + 1, g.total + d.outstanding,
              Set(g.byCurrency, d.currency, GetOr(g.byCurrency, d.currency, 0) + d.outstanding), g.debts + [id])
  }

  /** Adding a debt adds one to the counts and its amount to the totals, and keeps every group balanced. */
  lemma AddDebtSpec(groups: seq<(string, YearGroup)>, id: string, d: Debt)
    requires forall y :: Get(groups, y).Some? ==> Balanced(Get(groups, y).value)
    ensures var after := AddDebt(groups, id, d);
      && SumValues(after, GroupCount) == SumValues(groups, GroupCount) + 1
      && SumValues(after, GroupTotal) == SumValues(groups, GroupTotal) + d.outstanding
      && (forall y :: Get(after, y).Some? ==> Balanced(Get(after, y).value))
      && (forall y :: y in Keys(after) <==> y in Keys(groups) || y == YearKey(d))
  {
    var g' := Joined(groups, id, d);
    assert AddDebt(groups, id, d) == Set(groups, YearKey(d), g');
    AddDebtSums(groups, id, d);
    JoinedBalanced(groups, id, d);
    SetGet(groups, YearKey(d), g');
    SetKeys(groups, YearKey(d), g');
  }

  /** The joined group has one more debt and the debt's amount more than before. */
  lemma AddDebtSums(groups: seq<(string, YearGroup)>, id: string, d: Debt)
    ensures var after := Set(groups, YearKey(d), Joined(groups, id, d));
      && SumValues(after, GroupCount) == SumValues(groups, GroupCount) + 1
      && SumValues(after, GroupTotal) == SumValues(groups, GroupTotal) + d.outstanding
  {
    var g' := Joined(groups, id, d);
    SetSum(groups, YearKey(d), g', GroupCount);
    SetSum(groups, YearKey(d), g', GroupTotal);
  }

  /** A debt joining a balanced group (or a new one) leaves it balanced. */
  lemma JoinedBalanced(groups: seq<(string, YearGroup)>, id: string, d: Debt)
    requires forall y :: Get(groups, y).Some? ==> Balanced(Get(groups, y).value)
    ensures Balanced(Joined(groups, id, d))
  {
    var g := GetOr(groups, YearKey(d), YearGroup(0, 0, [], []));
    assert Balanced(g);
    SetSum(g.byCurrency, d.currency, GetOr(g.byCurrency, d.currency, 0) + d.outstanding, (a: int) => a);
  }

  /**
   * The grouping loses and invents nothing: the counts add up to the number
   * of debts, the totals to the total debt, and every year's currency split
   * to that year's total.
   */
  lemma {:induction false} GroupByYearSums(debts: seq<(string, Debt)>)
    ensures var groups := GroupByYear(debts);
      && SumValues(groups, GroupCount) == |debts|
      && SumValues(groups, GroupTotal) == TotalDebt(debts)
      && (forall y :: Get(groups, y).Some? ==> Balanced(Get(groups, y).value))
    decreases |debts|
  {
    if |debts| > 0 {
      var init := debts[..|debts| - 1];
      GroupByYearSums(init);
      TotalDebtLast(debts);
      AddDebtSpec(GroupByYear(init), debts[|debts| - 1].0, debts[|debts| - 1].1);
    }
  }

  /** The years grouped are exactly the maturity years of the debts. */
  /** Adding a debt adds its year to the keys, and no other. */
  lemma AddDebtKeys(groups: seq<(string, YearGroup)>, id: string, d: Debt, y: string)
    ensures y in Keys(AddDebt(groups, id, d)) <==> y in Keys(groups) || y == YearKey(d)
  {
    var g' := Joined(groups, id, d);
    assert AddDebt(groups, id, d) == Set(groups, YearKey(d), g');
    SetKeys(groups, YearKey(d), g');
  }

  /** The last debt visited adds its year to the keys of the groups before it, and no other. */
  lemma GroupByYearLast(debts: seq<(string, Debt)>, y: string)
    requires |debts| > 0
    ensures y in Keys(GroupByYear(debts)) <==>
      y in Keys(GroupByYear(debts[..|debts| - 1])) || y == YearKey(debts[|debts| - 1].1)
  {
    var last := debts[|debts| - 1];
    assert GroupByYear(debts) == AddDebt(GroupByYear(debts[..|debts| - 1]), last.0, last.1);
    AddDebtKeys(GroupByYear(debts[..|debts| - 1]), last.0, last.1, y);
  }

  /** The maturity year of each debt, in order. */
  function Years(debts: seq<(string, Debt)>): (r: seq<string>)
    ensures |r| == |debts|
    ensures forall i :: 0 <= i < |debts| ==> r[i] == YearKey(debts[i].1)
  {
    if |debts| == 0 then [] else Years(debts[..|debts| - 1]) + [YearKey(debts[|debts| - 1].1)]
  }

  /** The years grouped are exactly the maturity years of the debts. */
  lemma {:induction false} GroupByYearKeys(debts: seq<(string, Debt)>, y: string)
    ensures y in Keys(GroupByYear(debts)) <==> y in Years(debts)
    decreases |debts|
  {
    if |debts| > 0 {
      GroupByYearLast(debts, y);
      GroupByYearKeys(debts[..|debts| - 1], y);
    }
  }

  /** `debt["currency"] == currency` for every debt when a currency is given. */
  function ByCurrency(debts: seq<(string, Debt)>, currency: Value): seq<(string, Debt)> {
    if Truthy(currency) then Filter(debts, (id: string, d: Debt) => VStr(d.currency) == currency) else debts
  }

  /** Years whose total exceeds a fifth of the total debt (`total / total_debt > 0.2`). */
  function MajorYears(groups: seq<(string, YearGroup)>, totalDebt: int): seq<string>
    requires totalDebt != 0
  {
    if |groups| == 0 then []
    else
      var head := if groups[0].1.total as real / totalDebt as real > 0.2 then [groups[0].0] else [];
      head + MajorYears(groups[1..], totalDebt)
  }

  /** For a positive total, a major year is one holding more than a fifth of it. */
  lemma {:induction false} MajorYearsSpec(groups: seq<(string, YearGroup)>, totalDebt: int, y: string)
    requires totalDebt > 0 && Unique(groups)
    ensures y in MajorYears(groups, totalDebt) <==> Get(groups, y).Some? && Get(groups, y).value.total * 5 > totalDebt
  {
    if |groups| > 0 {
      MajorYearsSpec(groups[1..], totalDebt, y);
      GetSome(groups[1..], y);
      ShareAboveFifth(groups[0].1.total, totalDebt);
    }
  }

  /** A share of a positive total is above 0.2 exactly when five times the part exceeds the total. */
  lemma ShareAboveFifth(part: int, total: int)
    requires total > 0
    ensures part as real / total as real > 0.2 <==> part * 5 > total
  {
    var t := total as real;
    var q := part as real / t;
    var d := q - 0.2;
    assert part as real == 0.2 * t + d * t;
    if d > 0.0 {
      PositiveProduct(d, t);
    } else {
      PositiveProduct(-d, t);
    }
  }

  lemma PositiveProduct(a: real, b: real)
    requires a >= 0.0 && b > 0.0
    ensures a * b >= 0.0 && (a > 0.0 ==> a * b > 0.0)
  {
  }

  datatype MaturityProfile = MaturityProfile(
    horizon: int, totalDebt: int, years: seq<string>, groups: seq<(string, YearGroup)>, majorYears: seq<string>)

  /**
   * `handle_debt_maturity`: the debts (of one currency, if given) grouped by
   * maturity year, the years ascending, and the major years. Err is an
   * exception: a horizon that is not text, a horizon date past the
   * calendar, or a zero total debt across non-empty groups.
   */
  function DebtMaturity(debts: seq<(string, Debt)>, horizon: Value, currency: Value, now: Date): Result<MaturityProfile>
    requires Valid(now)
  {
    var kept := ByCurrency(debts, currency);
    match ParseYears(horizon, 5)
    case None => Err("'horizon' has no attribute 'endswith'")
    case Some(years) =>
      match Horizon(now, years)
      case None => Err("date value out of range")
      case Some(h) =>
        var groups := GroupByYear(kept);
        var total := TotalDebt(kept);
        if |groups| > 0 && total == 0 then Err("division by zero")
        else Ok(MaturityProfile(h, total, SortBy(Keys(groups), StrLe), groups,
                                if total == 0 then [] else MajorYears(groups, total)))
  }

  lemma {:induction false} AddDebtUnique(groups: seq<(string, YearGroup)>, id: string, d: Debt)
    requires Unique(groups)
    ensures Unique(AddDebt(groups, id, d))
  {
    var g := GetOr(groups, YearKey(d), YearGroup(0, 0, [], []));
    var byCurrency := Set(g.byCurrency, d.currency, GetOr(g.byCurrency, d.currency, 0) + d.outstanding);
    SetSpec(groups, YearKey(d), YearGroup(g.count + 1, g.total + d.outstanding, byCurrency, g.debts + [id]));
  }

  lemma {:induction false} GroupByYearUnique(debts: seq<(string, Debt)>)
    ensures Unique(GroupByYear(debts))
    decreases |debts|
  {
    if |debts| > 0 {
      GroupByYearUnique(debts[..|debts| - 1]);
      AddDebtUnique(GroupByYear(debts[..|debts| - 1]), debts[|debts| - 1].0, debts[|debts| - 1].1);
    }
  }

  /**
   * The profile keeps exactly the debts of the requested currency, lists
   * every year once in ascending order, and adds up.
   */
  lemma DebtMaturitySpec(debts: seq<(string, Debt)>, horizon: Value, currency: Value, now: Date)
    requires Valid(now) && DebtMaturity(debts, horizon, currency, now).Ok?
    ensures var p := DebtMaturity(debts, horizon, currency, now).value;
      var kept := ByCurrency(debts, currency);
      && (Truthy(currency) ==> forall e :: e in kept <==> e in debts && VStr(e.1.currency) == currency)
      && SortedBy(p.years, StrLe)
      && multiset(p.years) == multiset(Keys(p.groups))
      && SumValues(p.groups, GroupCount) == |kept|
      && SumValues(p.groups, GroupTotal) == p.totalDebt
      && (forall y :: Get(p.groups, y).Some? ==> Balanced(Get(p.groups, y).value))
      && (p.totalDebt > 0 ==> forall y :: y in p.majorYears <==>
            Get(p.groups, y).Some? && Get(p.groups, y).value.total * 5 > p.totalDebt)
  {
    var kept := ByCurrency(debts, currency);
    if Truthy(currency) {
      FilterSpec(debts, (id: string, d: Debt) => VStr(d.currency) == currency);
    }
    StrLeIsOrder();
    SortBySpec(Keys(GroupByYear(kept)), StrLe);
    GroupByYearSums(kept);
    GroupByYearUnique(kept);
    var p := DebtMaturity(debts, horizon, currency, now).value;
    if p.totalDebt > 0 {
      forall y ensures y in p.majorYears <==> Get(p.groups, y).Some? && Get(p.groups, y).value.total * 5 > p.totalDebt {
        MajorYearsSpec(p.groups, p.totalDebt, y);
      }
    }
  }
}
