/**
 * Calendar dates as Python's `datetime` handles them: the proleptic
 * Gregorian calendar over years 1 to 9999, day numbers (`toordinal`), the
 * ISO text `strftime("%Y-%m-%d")` produces, and the month abbreviations of
 * `%b`.
 */
module Dates {
  import opened Wrappers
  import opened Strings

  datatype Date = Date(year: int, month: int, day: int)

  const MaxYear: int := 9999

  predicate IsLeap(year: int) {
    year % 4 == 0 && (year % 100 != 0 || year % 400 == 0)
  }

  function DaysInMonth(year: int, month: int): (n: int)
    requires 1 <= month <= 12
    ensures 28 <= n <= 31
  {
    if month == 2 then (if IsLeap(year) then 29 else 28)
    else if month == 4 || month == 6 || month == 9 || month == 11 then 30
    else 31
  }

  /** A date `datetime` accepts. */
  predicate Valid(d: Date) {
    1 <= d.year <= MaxYear && 1 <= d.month <= 12 && 1 <= d.day <= DaysInMonth(d.year, d.month)
  }

  /** `datetime(...)` or `d.replace(...)`: None is the ValueError for a date that does not exist. */
  function Make(year: int, month: int, day: int): (r: Option<Date>)
    ensures r.Some? <==> Valid(Date(year, month, day))
    ensures r.Some? ==> r.value == Date(year, month, day)
  {
    if Valid(Date(year, month, day)) then Some(Date(year, month, day)) else None
  }

  /** `a < b`. */
  predicate Before(a: Date, b: Date) {
    a.year < b.year || (a.year == b.year && (a.month < b.month || (a.month == b.month && a.day < b.day)))
  }

  function DaysInYear(year: int): int {
    if IsLeap(year) then 366 else 365
  }

  /** Days in the years before `year`. */
  function DaysBeforeYear(year: int): int
    requires year >= 1
  {
    var y := year - 1;
    365 * y + y / 4 - y / 100 + y / 400
  }

  /** Days in the months of `year` before `month`, from the cumulative table of a common year. */
  function DaysBeforeMonth(year: int, month: int): int
    requires 1 <= month <= 13
  {
    [0, 31, 59, 90, 120, 151, 181, 212, 243, 273, 304, 334, 365][month - 1]
      + (if month > 2 && IsLeap(year) then 1 else 0)
  }

  /** `d.toordinal()`: 1 January of year 1 is day 1. */
  function Ordinal(d: Date): int
    requires Valid(d)
  {
    DaysBeforeYear(d.year) + DaysBeforeMonth(d.year, d.month) + d.day
  }

  /** The day number of the last date `datetime` can hold. */
  function LastOrdinal(): int {
    Ordinal(Date(MaxYear, 12, 31))
  }

  /** The cumulative table agrees with the month lengths. */
  lemma MonthTable(year: int, month: int)
    requires 1 <= month <= 12
    ensures DaysBeforeMonth(year, month + 1) == DaysBeforeMonth(year, month) + DaysInMonth(year, month)
    ensures DaysBeforeMonth(year, 13) == DaysInYear(year)
  {
  }

  lemma MonthTableMonotone(year: int, m1: int, m2: int)
    requires 1 <= m1 <= m2 <= 13
    ensures DaysBeforeMonth(year, m1) <= DaysBeforeMonth(year, m2)
  {
  }

  /** Consecutive years are a year's length apart. */
  lemma YearStep(year: int)
    requires year >= 1
    ensures DaysBeforeYear(year + 1) == DaysBeforeYear(year) + DaysInYear(year)
  {
    var y := year - 1;
    assert (y + 1) / 4 == y / 4 + (if year % 4 == 0 then 1 else 0);
    assert (y + 1) / 100 == y / 100 + (if year % 100 == 0 then 1 else 0);
    assert (y + 1) / 400 == y / 400 + (if year % 400 == 0 then 1 else 0);
  }

  lemma {:induction false} YearMonotone(a: int, b: int)
    requires 1 <= a <= b
    ensures DaysBeforeYear(a) <= DaysBeforeYear(b)
    decreases b - a
  {
    if a < b {
      YearStep(a);
      YearMonotone(a + 1, b);
    }
  }

  lemma WithinYear(d: Date)
    requires Valid(d)
    ensures DaysBeforeYear(d.year) < Ordinal(d) <= DaysBeforeYear(d.year) + DaysInYear(d.year)
  {
    MonthTable(d.year, d.month);
    MonthTableMonotone(d.year, d.month + 1, 13);
  }

  lemma OrdinalBefore(a: Date, b: Date)
    requires Valid(a) && Valid(b) && Before(a, b)
    ensures Ordinal(a) < Ordinal(b)
  {
    if a.year < b.year {
      WithinYear(a);
      WithinYear(b);
      YearStep(a.year);
      YearMonotone(a.year + 1, b.year);
    } else if a.month < b.month {
      MonthTable(a.year, a.month);
      MonthTableMonotone(a.year, a.month + 1, b.month);
    }
  }

  /** Day numbers order dates as the calendar does, and tell distinct dates apart. */
  lemma OrdinalOrder(a: Date, b: Date)
    requires Valid(a) && Valid(b)
    ensures Before(a, b) <==> Ordinal(a) < Ordinal(b)
    ensures a == b <==> Ordinal(a) == Ordinal(b)
  {
    if Before(a, b) {
      OrdinalBefore(a, b);
    } else if Before(b, a) {
      OrdinalBefore(b, a);
    }
  }

  /** The day before the first of a month is the last day of the month before it. */
  lemma DayBeforeFirst(year: int, month: int)
    requires 1 <= year <= MaxYear && 1 <= month <= 12
    requires month == 1 ==> year > 1
    ensures var prev := if month == 1 then Date(year - 1, 12, 31) else Date(year, month - 1, DaysInMonth(year, month - 1));
      Valid(prev) && Ordinal(prev) + 1 == Ordinal(Date(year, month, 1))
  {
    if month == 1 {
      YearStep(year - 1);
      MonthTable(year - 1, 12);
    } else {
      MonthTable(year, month - 1);
    }
  }

  /** `d.strftime("%Y-%m-%d")`; a `datetime` never holds an invalid date, which renders as "". */
  function Iso(d: Date): (r: string)
    ensures Valid(d) ==> |r| == 10
  {
    if Valid(d) then Digits(d.year, 4) + ("-" + (Digits(d.month, 2) + ("-" + Digits(d.day, 2)))) else ""
  }

  /** The first four characters of the ISO text are the year. */
  lemma IsoYear(d: Date)
    requires Valid(d)
    ensures Iso(d)[..4] == Digits(d.year, 4)
  {
  }

  /** ISO text holds digits and dashes only, so never a colon. */
  lemma IsoNoColon(d: Date)
    requires Valid(d)
    ensures Count(Iso(d), ':') == 0
  {
    var y, m, dd := Digits(d.year, 4), Digits(d.month, 2), Digits(d.day, 2);
    CountAbsent(y, ':');
    CountAbsent(m, ':');
    CountAbsent(dd, ':');
    CountAbsent("-", ':');
    CountAppend("-", dd, ':');
    CountAppend(m, "-" + dd, ':');
    CountAppend("-", m + ("-" + dd), ':');
    CountAppend(y, "-" + (m + ("-" + dd)), ':');
  }

  /** ISO texts compare as strings exactly as their dates compare. */
  lemma IsoOrder(a: Date, b: Date)
    requires Valid(a) && Valid(b)
    ensures StrLe(Iso(a), Iso(b)) <==> !Before(b, a)
    ensures Iso(a) == Iso(b) <==> a == b
  {
    var da, db := Digits(a.day, 2), Digits(b.day, 2);
    var ma, mb := Digits(a.month, 2) + ("-" + da), Digits(b.month, 2) + ("-" + db);
    DigitsOrder(a.year, b.year, 4);
    DigitsOrder(a.month, b.month, 2);
    DigitsOrder(a.day, b.day, 2);
    StrLeAppend(Digits(a.year, 4), Digits(b.year, 4), "-" + ma, "-" + mb);
    StrLeAppend("-", "-", ma, mb);
    StrLeAppend(Digits(a.month, 2), Digits(b.month, 2), "-" + da, "-" + db);
    StrLeAppend("-", "-", da, db);
    SplitEqual(Digits(a.year, 4), Digits(b.year, 4), "-" + ma, "-" + mb);
    SplitEqual("-", "-", ma, mb);
    SplitEqual(Digits(a.month, 2), Digits(b.month, 2), "-" + da, "-" + db);
    SplitEqual("-", "-", da, db);
  }

  /** Equal strings with prefixes of equal length have equal prefixes and rests. */
  lemma SplitEqual(p: string, q: string, x: string, y: string)
    requires |p| == |q|
    ensures p + x == q + y <==> p == q && x == y
  {
    if p + x == q + y {
      assert (p + x)[..|p|] == p && (q + y)[..|q|] == q;
      assert (p + x)[|p|..] == x && (q + y)[|q|..] == y;
    }
  }

  /** Two zero-padded digits are the tens digit and the units digit. */
  lemma TwoDigits(n: nat)
    requires n < 100
    ensures Digits(n, 2) == [DigitChar(n / 10), DigitChar(n % 10)]
  {
    var q := n / 10;
    assert q < 10 && q / 10 == 0 && q % 10 == q;
    assert Digits(q, 1) == Digits(0, 0) + [DigitChar(q)];
    assert Digits(n, 2) == Digits(q, 1) + [DigitChar(n % 10)];
  }

  /** `%m` of `strptime`: `1[0-2]|0[1-9]|[1-9]`. */
  function MonthField(f: string): (r: Option<int>)
    ensures r.Some? ==> 1 <= r.value <= 12
  {
    if |f| == 1 && '1' <= f[0] <= '9' then Some(DigitValue(f[0]))
    else if |f| == 2 && f[0] == '0' && '1' <= f[1] <= '9' then Some(DigitValue(f[1]))
    else if |f| == 2 && f[0] == '1' && '0' <= f[1] <= '2' then Some(10 + DigitValue(f[1]))
    else None
  }

  /** `%d` of `strptime`: `3[01]|[12]\d|0[1-9]|[1-9]| [1-9]`. */
  function DayField(f: string): (r: Option<int>)
    ensures r.Some? ==> 1 <= r.value <= 31
  {
    if |f| == 1 && '1' <= f[0] <= '9' then Some(DigitValue(f[0]))
    else if |f| == 2 && (f[0] == '0' || f[0] == ' ') && '1' <= f[1] <= '9' then Some(DigitValue(f[1]))
    else if |f| == 2 && (f[0] == '1' || f[0] == '2') && IsDigit(f[1]) then Some(10 * DigitValue(f[0]) + DigitValue(f[1]))
    else if |f| == 2 && f[0] == '3' && (f[1] == '0' || f[1] == '1') then Some(30 + DigitValue(f[1]))
    else None
  }

  /**
   * `datetime.strptime(s, "%Y-%m-%d")` on ASCII text: four digits, a dash, a
   * month of one or two digits, a dash, and a day of one or two characters
   * ending the text. None is the ValueError of text of any other shape and
   * of a date that does not exist.
   */
  function ParseIso(s: string): (r: Option<Date>)
    ensures r.Some? ==> Valid(r.value)
  {
    if |s| < 8 || !AllDigits(s[..4]) || s[4] != '-' then None
    else
      var rest := s[5..];
      var m := if rest[1] == '-' then 1 else 2;
      if rest[m] != '-' then None
      else
        match (MonthField(rest[..m]), DayField(rest[m + 1..]))
        case (Some(month), Some(day)) => Make(DigitsValue(s[..4]), month, day)
        case _ => None
  }

  /** `strptime` reads the ISO text of every date back as that date. */
  lemma ParseIsoIso(d: Date)
    requires Valid(d)
    ensures ParseIso(Iso(d)) == Some(d)
  {
    var s := Iso(d);
    var y, m, dd := Digits(d.year, 4), Digits(d.month, 2), Digits(d.day, 2);
    assert s == y + ("-" + (m + ("-" + dd)));
    assert s[..4] == y;
    assert Pow10(4) == 10000;
    DigitsValueOf(d.year, 4);
    IsoRest(d);
  }

  /** After the year and its dash, the ISO text is the two-digit month, a dash and the two-digit day. */
  lemma IsoRest(d: Date)
    requires Valid(d)
    ensures var rest := Iso(d)[5..];
      && rest[1] != '-' && rest[2] == '-'
      && MonthField(rest[..2]) == Some(d.month) && DayField(rest[3..]) == Some(d.day)
  {
    var m, dd := Digits(d.month, 2), Digits(d.day, 2);
    var rest := Iso(d)[5..];
    assert rest == m + ("-" + dd);
    MonthDigits(d.month);
    DayDigits(d.day);
    assert rest[..2] == m && rest[2] == '-' && rest[3..] == dd;
  }

  /** `%m` reads a month's two zero-padded digits back as the month. */
  lemma MonthDigits(month: int)
    requires 1 <= month <= 12
    ensures Digits(month, 2)[1] != '-' && MonthField(Digits(month, 2)) == Some(month)
  {
    TwoDigits(month);
  }

  /** `%d` reads a day's two zero-padded digits back as the day. */
  lemma DayDigits(day: int)
    requires 1 <= day <= 31
    ensures DayField(Digits(day, 2)) == Some(day)
  {
    TwoDigits(day);
  }

  /** `%b`. */
  function MonthAbbrev(month: int): string
    requires 1 <= month <= 12
  {
    ["Jan", "Feb", "Mar", "Apr", "May", "Jun", "Jul", "Aug", "Sep", "Oct", "Nov", "Dec"][month - 1]
  }

  /** Months since January of year 0: consecutive months are one apart. */
  function MonthIndex(d: Date): int {
    d.year * 12 + d.month - 1
  }

  /** The date `day` in the month with the given index. */
  function AtMonthIndex(index: int, day: int): (d: Date)
    ensures index >= 0 ==> MonthIndex(d) == index && 1 <= d.month <= 12
  {
    Date(index / 12, index % 12 + 1, day)
  }

  /** A later month means a later date. */
  lemma MonthIndexBefore(a: Date, b: Date)
    requires 1 <= a.month <= 12 && 1 <= b.month <= 12
    requires MonthIndex(a) < MonthIndex(b)
    ensures Before(a, b)
  {
  }
}
