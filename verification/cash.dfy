/**
 * The cash-management handlers: the sample cash-flow forecast, with its
 * balance recurrence and period names, and the liquidity metrics of one
 * reporting period.
 *
 * Today's date, the retrieved context and the rendering of day and week end
 * dates are parameters; the forecast the language model writes when context
 * is found is not modelled.
 */
module Cash {
  import opened Wrappers
  import opened OrderedDict
  import opened Values
  import opened Strings
  import opened Dates

  // ---------------------------------------------------------------------------
  // The number of periods.

  /** `int(x)` of a float: truncation toward zero. */
  function Truncate(x: real): (n: int)
    ensures x >= 0.0 ==> n as real <= x < n as real + 1.0
    ensures x < 0.0 ==> n as real - 1.0 < x <= n as real
  {
    if x >= 0.0 then x.Floor else -((-x).Floor)
  }

  /** `int(v)`; None is the ValueError or TypeError raised on anything else. */
  function ToInt(v: Value): Option<int> {
    match v
    case VInt(i) => Some(i)
    case VBool(b) => Some(if b then 1 else 0)
    case VReal(x) => Some(Truncate(x))
    case VStr(s) => ParseInt(s)
    case _ => None
  }

  /** An integer, its decimal text and a float with no fraction all convert to the same count. */
  lemma ToIntSpec(n: int)
    ensures ToInt(VInt(n)) == Some(n)
    ensures ToInt(VStr(IntToString(n))) == Some(n)
    ensures ToInt(VReal(n as real)) == Some(n)
  {
    ParseIntToString(n);
    TruncateWhole(n);
  }

  lemma TruncateWhole(n: int)
    ensures Truncate(n as real) == n
  {
    if n < 0 {
      assert (-(n as real)).Floor == -n;
    }
  }

  // ---------------------------------------------------------------------------
  // Period names.

  /** The year and month `i` months after `start`: `month = start.month + i`, carried into the year. */
  function MonthAfter(start: Date, i: nat): (ym: (int, int))
    requires 1 <= start.month <= 12
    ensures 1 <= ym.1 <= 12 && ym.0 * 12 + ym.1 - 1 == MonthIndex(start) + i
  {
    var month := start.month + i;
    (start.year + (month - 1) / 12, (month - 1) % 12 + 1)
  }

  /** The year and first month of the quarter `i` quarters after the one holding `start`. */
  function QuarterAfter(start: Date, i: nat): (ym: (int, int))
    requires 1 <= start.month <= 12
    ensures ym.1 in {1, 4, 7, 10}
    ensures ym.0 * 4 + (ym.1 - 1) / 3 == start.year * 4 + (start.month - 1) / 3 + i
  {
    var extraQuarters := i + (start.month - 1) / 3;
    (start.year + extraQuarters / 4, (extraQuarters % 4) * 3 + 1)
  }

  /** `"%b %Y"` of a month. */
  function MonthLabel(year: int, month: int): string
    requires 0 <= year && 1 <= month <= 12
  {
    MonthAbbrev(month) + " " + Digits(year, 4)
  }

  /** `f"Q{quarter_num} {year}"`. */
  function QuarterLabel(year: int, month: int): string
    requires 0 <= year && 1 <= month <= 12
  {
    "Q" + NatToString((month - 1) / 3 + 1) + " " + NatToString(year)
  }

  /**
   * The name of period `i` as written: the month and quarter periods move
   * today's date with `replace(year=..., month=...)`, which raises when
   * today's day does not exist in the target month. Any period other than
   * "day", "week" and "month" is named as a quarter.
   */
  function WrittenPeriodName(period: Value, start: Date, i: nat, dayStamp: nat -> string, weekStamp: nat -> string): Result<string>
    requires Valid(start)
  {
    if period == VStr("day") then Ok(dayStamp(i))
    else if period == VStr("week") then Ok("Week " + NatToString(i + 1) + " (" + weekStamp(i) + ")")
    else
      var ym := if period == VStr("month") then MonthAfter(start, i) else QuarterAfter(start, i);
      if ym.0 > MaxYear then Err("year is out of range")
      else if start.day > DaysInMonth(ym.0, ym.1) then Err("day is out of range for month")
      else if period == VStr("month") then Ok(MonthLabel(ym.0, ym.1))
      else Ok(QuarterLabel(ym.0, ym.1))
  }

  /** The name of period `i`, computed from the year and month alone. */
  function PeriodName(period: Value, start: Date, i: nat, dayStamp: nat -> string, weekStamp: nat -> string): Result<string>
    requires Valid(start)
  {
    if period == VStr("day") then Ok(dayStamp(i))
    else if period == VStr("week") then Ok("Week " + NatToString(i + 1) + " (" + weekStamp(i) + ")")
    else
      var ym := if period == VStr("month") then MonthAfter(start, i) else QuarterAfter(start, i);
      if ym.0 > MaxYear then Err("year is out of range")
      else if period == VStr("month") then Ok(MonthLabel(ym.0, ym.1))
      else Ok(QuarterLabel(ym.0, ym.1))
  }

  /** The month period `i` is named after the month `i` months on, as a month index. */
  lemma MonthNameSpec(start: Date, i: nat, dayStamp: nat -> string, weekStamp: nat -> string)
    requires Valid(start)
    ensures var target := AtMonthIndex(MonthIndex(start) + i, 1);
      var r := PeriodName(VStr("month"), start, i, dayStamp, weekStamp);
      && (r.Ok? <==> target.year <= MaxYear)
      && (r.Ok? ==> r.value == MonthAbbrev(target.month) + " " + Digits(target.year, 4))
  {
  }

  /** The quarter period `i` is named after the quarter `i` quarters on, as a quarter index. */
  lemma QuarterNameSpec(start: Date, i: nat, dayStamp: nat -> string, weekStamp: nat -> string)
    requires Valid(start)
    ensures var index := start.year * 4 + (start.month - 1) / 3 + i;
      var r := PeriodName(VStr("quarter"), start, i, dayStamp, weekStamp);
      && (r.Ok? <==> index / 4 <= MaxYear)
      && (r.Ok? ==> r.value == "Q" + NatToString(index % 4 + 1) + " " + NatToString(index / 4))
  {
    var ym := QuarterAfter(start, i);
    var index := start.year * 4 + (start.month - 1) / 3 + i;
    assert ym.0 == index / 4 && (ym.1 - 1) / 3 == index % 4;
  }

  /**
   * Where the handler as written names a period at all, it gives the same
   * name; it fails exactly when today's day is missing from the target month.
   */
  lemma WrittenNameAgrees(period: Value, start: Date, i: nat, dayStamp: nat -> string, weekStamp: nat -> string)
    requires Valid(start)
    ensures var written := WrittenPeriodName(period, start, i, dayStamp, weekStamp);
      var ym := if period == VStr("month") then MonthAfter(start, i) else QuarterAfter(start, i);
      && (written.Ok? ==> written == PeriodName(period, start, i, dayStamp, weekStamp))
      && (written.Ok? <==> PeriodName(period, start, i, dayStamp, weekStamp).Ok?
                           && (period == VStr("day") || period == VStr("week") || start.day <= DaysInMonth(ym.0, ym.1)))
  {
  }

  // ---------------------------------------------------------------------------
  // The sample forecast.

  datatype Row = Row(name: string, inflows: int, outflows: int, net: int, beginning: int, ending: int)

  const StartingBalance: int := 1500000

  /** Rows `i` up to `count`, the first starting from `balance`. */
  function ForecastRows(name: nat -> Result<string>, i: nat, count: nat, balance: int): Result<seq<Row>>
    decreases count - i
  {
    if i >= count then Ok([])
    else
      var title := name(i);
      if title.Err? then Err(title.error)
      else
        var inflows, outflows := 800000 + i * 50000, 700000 + i * 30000;
        var row := Row(title.value, inflows, outflows, inflows - outflows, balance, balance + (inflows - outflows));
        var rest := ForecastRows(name, i + 1, count, row.ending);
        if rest.Err? then Err(rest.error) else Ok([row] + rest.value)
  }

  /** The rows exist exactly when every period can be named. */
  lemma {:induction false} ForecastRowsDefined(name: nat -> Result<string>, i: nat, count: nat, balance: int)
    requires i <= count
    ensures ForecastRows(name, i, count, balance).Ok? <==> forall k :: i <= k < count ==> name(k).Ok?
    decreases count - i
  {
    if i < count && name(i).Ok? {
      ForecastRowsDefined(name, i + 1, count, balance + 100000 + i * 20000);
    }
  }

  /**
   * There is one row per period; each balance carries over to the next row,
   * and each row's flows grow linearly with its index.
   */
  lemma {:induction false} ForecastRowsSpec(name: nat -> Result<string>, i: nat, count: nat, balance: int)
    requires i <= count && ForecastRows(name, i, count, balance).Ok?
    ensures var rows := ForecastRows(name, i, count, balance).value;
      && |rows| == count - i
      && (|rows| > 0 ==> rows[0].beginning == balance)
      && (forall k :: 0 < k < |rows| ==> rows[k].beginning == rows[k - 1].ending)
      && forall k :: 0 <= k < |rows| ==>
           && name(i + k) == Ok(rows[k].name)
           && rows[k].inflows == 800000 + (i + k) * 50000
           && rows[k].outflows == 700000 + (i + k) * 30000
           && rows[k].net == rows[k].inflows - rows[k].outflows
           && rows[k].ending == rows[k].beginning + rows[k].net
    decreases count - i
  {
    if i < count {
      var ending := balance + (800000 + i * 50000 - (700000 + i * 30000));
      ForecastRowsSpec(name, i + 1, count, ending);
      var rows := ForecastRows(name, i, count, balance).value;
      var rest := ForecastRows(name, i + 1, count, ending).value;
      assert rows == [rows[0]] + rest;
      forall k | 0 < k < |rows| ensures rows[k] == rest[k - 1] {
      }
    }
  }

  /** The ending balance of row `k` from the start: 1,500,000 plus 100,000 and 20,000 more each period. */
  lemma {:induction false} ClosedForm(rows: seq<Row>, k: nat)
    requires k < |rows| && rows[0].beginning == StartingBalance
    requires forall j :: 0 < j < |rows| ==> rows[j].beginning == rows[j - 1].ending
    requires forall j :: 0 <= j < |rows| ==>
      rows[j].ending == rows[j].beginning + (800000 + j * 50000) - (700000 + j * 30000)
    ensures rows[k].ending == StartingBalance + 100000 * (k + 1) + 10000 * k * (k + 1)
  {
    if k > 0 {
      ClosedForm(rows, k - 1);
      assert 10000 * k * (k + 1) == 10000 * (k - 1) * k + 20000 * k;
    }
  }

  datatype ForecastOutcome =
    | SampleForecast(periodType: Value, count: int, rows: seq<Row>)
    | LlmForecast(periodType: Value, count: int)

  /**
   * `handle_cash_flow_forecast` with the names of the periods given: the
   * count is converted first, context means the language model writes the
   * forecast, and otherwise the sample rows are built; a count of zero or
   * less fails on reading the first row.
   */
  function Forecast(entities: Dict, context: string, name: nat -> Result<string>): Result<ForecastOutcome> {
    var period := GetOr(entities, "period", VStr("month"));
    var count := ToInt(GetOr(entities, "num_periods", VInt(3)));
    if count.None? then Err("invalid literal for int()")
    else if |context| > 0 then Ok(LlmForecast(period, count.value))
    else if count.value <= 0 then Err("list index out of range")
    else
      var rows := ForecastRows(name, 0, count.value, StartingBalance);
      if rows.Err? then Err(rows.error) else Ok(SampleForecast(period, count.value, rows.value))
  }

  /** The forecast as written. */
  function WrittenCashFlowForecast(entities: Dict, context: string, today: Date, dayStamp: nat -> string, weekStamp: nat -> string): Result<ForecastOutcome>
    requires Valid(today)
  {
    var period := GetOr(entities, "period", VStr("month"));
    Forecast(entities, context, (i: nat) => WrittenPeriodName(period, today, i, dayStamp, weekStamp))
  }

  /** The forecast with every month and quarter named from its year and month. */
  function CashFlowForecast(entities: Dict, context: string, today: Date, dayStamp: nat -> string, weekStamp: nat -> string): Result<ForecastOutcome>
    requires Valid(today)
  {
    var period := GetOr(entities, "period", VStr("month"));
    Forecast(entities, context, (i: nat) => PeriodName(period, today, i, dayStamp, weekStamp))
  }

  /**
   * Sample rows come only without context, exactly `num_periods` of them,
   * chained from 1,500,000 and ending where the closed form says.
   */
  lemma ForecastSpec(entities: Dict, context: string, name: nat -> Result<string>)
    ensures var r := Forecast(entities, context, name);
      var count := ToInt(GetOr(entities, "num_periods", VInt(3)));
      && (r.Ok? && r.value.SampleForecast? ==> |context| == 0 && count == Some(r.value.count))
      && (r.Ok? && |context| == 0 ==>
            && r.value.SampleForecast? && r.value.count > 0
            && |r.value.rows| == r.value.count
            && r.value.rows[0].beginning == StartingBalance
            && forall k :: 0 <= k < |r.value.rows| ==>
                 r.value.rows[k].ending == StartingBalance + 100000 * (k + 1) + 10000 * k * (k + 1))
      && (count.Some? && count.value <= 0 && |context| == 0 ==> r.Err?)
  {
    var count := ToInt(GetOr(entities, "num_periods", VInt(3)));
    if count.Some? && |context| == 0 && count.value > 0 {
      var rows := ForecastRows(name, 0, count.value, StartingBalance);
      if rows.Ok? {
        ForecastRowsSpec(name, 0, count.value, StartingBalance);
        forall k | 0 <= k < |rows.value|
          ensures rows.value[k].ending == StartingBalance + 100000 * (k + 1) + 10000 * k * (k + 1)
        {
          ClosedForm(rows.value, k);
        }
      }
    }
  }

  /**
   * With the defaults (three months) on 31 January, the handler as written
   * raises on the second period, 31 February.
   */
  lemma WrittenMonthsFail(dayStamp: nat -> string, weekStamp: nat -> string)
    ensures WrittenCashFlowForecast([], "", Date(2025, 1, 31), dayStamp, weekStamp).Err?
  {
    var today := Date(2025, 1, 31);
    assert MonthAfter(today, 1) == (2025, 2);
    assert WrittenPeriodName(VStr("month"), today, 1, dayStamp, weekStamp).Err?;
    ForecastRowsDefined((i: nat) => WrittenPeriodName(VStr("month"), today, i, dayStamp, weekStamp), 0, 3, StartingBalance);
  }

  /** Asked for quarters on 31 January, it raises on the second one, 31 April. */
  lemma WrittenQuartersFail(dayStamp: nat -> string, weekStamp: nat -> string)
    ensures WrittenCashFlowForecast([("period", VStr("quarter"))], "", Date(2025, 1, 31), dayStamp, weekStamp).Err?
  {
    var today := Date(2025, 1, 31);
    assert QuarterAfter(today, 1) == (2025, 4);
    assert WrittenPeriodName(VStr("quarter"), today, 1, dayStamp, weekStamp).Err?;
    ForecastRowsDefined((i: nat) => WrittenPeriodName(VStr("quarter"), today, i, dayStamp, weekStamp), 0, 3, StartingBalance);
  }

  /** With the names taken from year and month alone, the same request gives its three rows. */
  lemma CorrectedForecastSucceeds(dayStamp: nat -> string, weekStamp: nat -> string)
    ensures var r := CashFlowForecast([], "", Date(2025, 1, 31), dayStamp, weekStamp);
      && r.Ok? && r.value.SampleForecast? && |r.value.rows| == 3
      && r.value.rows[2].ending == 1860000
  {
    var today := Date(2025, 1, 31);
    var name := (i: nat) => PeriodName(VStr("month"), today, i, dayStamp, weekStamp);
    forall k | 0 <= k < 3 ensures name(k).Ok? {
      MonthNameSpec(today, k, dayStamp, weekStamp);
    }
    ForecastRowsDefined(name, 0, 3, StartingBalance);
    ForecastSpec([], "", name);
  }

  // ---------------------------------------------------------------------------
  // Liquidity.

  datatype PeriodData = PeriodData(
    currentAssets: int, cashEquivalents: int, receivables: int, inventory: int,
    currentLiabilities: int, payables: int, shortTermDebt: int, accruedExpenses: int)

  /** The balance-sheet figures of `handle_liquidity_analysis`. */
  const LiquidityData: seq<(string, PeriodData)> := [
    ("current", PeriodData(2500000, 1200000, 800000, 500000, 1800000, 750000, 650000, 400000)),
    ("previous_quarter", PeriodData(2300000, 1000000, 850000, 450000, 1700000, 720000, 650000, 330000)),
    ("previous_year", PeriodData(2100000, 850000, 780000, 470000, 1550000, 680000, 600000, 270000))
  ]

  /** The metrics, in the order they are computed. */
  const MetricNames: seq<string> := ["current_ratio", "quick_ratio", "cash_ratio", "working_capital", "dso", "dpo"]

  /** `a / b`, where the caller has ruled out a zero `b` for every ratio it keeps. */
  function Ratio(a: int, b: int): real {
    if b == 0 then 0.0 else a as real / b as real
  }

  /** Every metric of a period, in the order they are computed. */
  function Metrics(p: PeriodData): (r: Dict)
    ensures Keys(r) == MetricNames
  {
    var r := [
      ("current_ratio", VReal(Ratio(p.currentAssets, p.currentLiabilities))),
      ("quick_ratio", VReal(Ratio(p.currentAssets - p.inventory, p.currentLiabilities))),
      ("cash_ratio", VReal(Ratio(p.cashEquivalents, p.currentLiabilities))),
      ("working_capital", VInt(p.currentAssets - p.currentLiabilities)),
      ("dso", VReal(p.receivables as real / (3000000.0 / 90.0))),
      ("dpo", VReal(p.payables as real / (2000000.0 / 90.0)))
    ];
    assert Keys(r) == [r[0].0] + Keys(r[1..]);
    assert Keys(r[1..]) == [r[1].0] + Keys(r[2..]);
    assert Keys(r[2..]) == [r[2].0] + Keys(r[3..]);
    assert Keys(r[3..]) == [r[3].0] + Keys(r[4..]);
    assert Keys(r[4..]) == [r[4].0] + Keys(r[5..]);
    assert Keys(r[5..]) == [r[5].0] + Keys(r[6..]);
    r
  }

  /** Which metrics `metrics` asks for. */
  function Wanted(metrics: Value): (w: seq<bool>)
    ensures |w| == |MetricNames|
  {
    seq(|MetricNames|, i requires 0 <= i < |MetricNames| => In(MetricNames[i], metrics) == Some(true))
  }

  /** The entries whose flag is set, in order. */
  function Pick(entries: Dict, wanted: seq<bool>): (r: Dict)
    requires |wanted| == |entries|
    ensures |r| <= |entries|
  {
    if |entries| == 0 then []
    else if wanted[0] then [entries[0]] + Pick(entries[1..], wanted[1..])
    else Pick(entries[1..], wanted[1..])
  }

  lemma {:induction false} PickMisses(entries: Dict, wanted: seq<bool>, k: string)
    requires |wanted| == |entries| && k !in Keys(entries)
    ensures Get(Pick(entries, wanted), k) == None
  {
    if |entries| > 0 {
      PickMisses(entries[1..], wanted[1..], k);
      if wanted[0] {
        assert ([entries[0]] + Pick(entries[1..], wanted[1..]))[1..] == Pick(entries[1..], wanted[1..]);
      }
    }
  }

  /** A key of a dict is picked with its value exactly when its flag is set. */
  lemma {:induction false} PickSpec(entries: Dict, wanted: seq<bool>, i: nat)
    requires |wanted| == |entries| && i < |entries| && Unique(entries)
    ensures Get(Pick(entries, wanted), entries[i].0) == if wanted[i] then Some(entries[i].1) else None
  {
    var rest := Pick(entries[1..], wanted[1..]);
    if wanted[0] {
      assert ([entries[0]] + rest)[1..] == rest;
    }
    if i == 0 {
      PickMisses(entries[1..], wanted[1..], entries[0].0);
    } else {
      assert entries[i] == entries[1..][i - 1];
      KeysHas(entries[1..], i - 1);
      PickSpec(entries[1..], wanted[1..], i - 1);
    }
  }

  lemma {:induction false} KeysHas(d: Dict, i: nat)
    requires i < |d|
    ensures d[i].0 in Keys(d)
  {
    if i > 0 {
      KeysHas(d[1..], i - 1);
    }
  }

  lemma {:induction false} KeysMiss(d: Dict, k: string)
    requires forall j :: 0 <= j < |d| ==> d[j].0 != k
    ensures k !in Keys(d)
  {
    if |d| > 0 {
      KeysMiss(d[1..], k);
    }
  }

  /** Entries with pairwise different keys form a dict. */
  lemma {:induction false} DistinctKeysUnique(d: Dict)
    requires forall i, j :: 0 <= i < j < |d| ==> d[i].0 != d[j].0
    ensures Unique(d)
  {
    if |d| > 0 {
      KeysMiss(d[1..], d[0].0);
      DistinctKeysUnique(d[1..]);
    }
  }

  /** Nothing but a key of the dict is picked. */
  lemma {:induction false} PickKeys(entries: Dict, wanted: seq<bool>, k: string)
    requires |wanted| == |entries| && Get(Pick(entries, wanted), k).Some?
    ensures k in Keys(entries)
  {
    PickMissesAll(entries, wanted, k);
  }

  lemma PickMissesAll(entries: Dict, wanted: seq<bool>, k: string)
    requires |wanted| == |entries|
    ensures k !in Keys(entries) ==> Get(Pick(entries, wanted), k) == None
  {
    if k !in Keys(entries) {
      PickMisses(entries, wanted, k);
    }
  }

  /** The ratios asked for; Err is the division by zero of a ratio asked for when there are no liabilities. */
  function Ratios(p: PeriodData, wanted: seq<bool>): (r: Result<Dict>)
    requires |wanted| == |MetricNames|
    ensures r.Err? <==> p.currentLiabilities == 0 && (wanted[0] || wanted[1] || wanted[2])
  {
    if p.currentLiabilities == 0 && (wanted[0] || wanted[1] || wanted[2]) then Err("division by zero")
    else Ok(Pick(Metrics(p), wanted))
  }

  /** A successful computation holds exactly the metrics asked for, each with its value; the three ratios are quotients by the current liabilities. */
  lemma RatiosSpec(p: PeriodData, wanted: seq<bool>, i: nat)
    requires |wanted| == |MetricNames| && i < |MetricNames| && Ratios(p, wanted).Ok?
    ensures Get(Ratios(p, wanted).value, MetricNames[i]) == if wanted[i] then Some(Metrics(p)[i].1) else None
    ensures wanted[0] ==> Get(Ratios(p, wanted).value, "current_ratio")
                          == Some(VReal(p.currentAssets as real / p.currentLiabilities as real))
    ensures wanted[1] ==> Get(Ratios(p, wanted).value, "quick_ratio")
                          == Some(VReal((p.currentAssets - p.inventory) as real / p.currentLiabilities as real))
    ensures wanted[2] ==> Get(Ratios(p, wanted).value, "cash_ratio")
                          == Some(VReal(p.cashEquivalents as real / p.currentLiabilities as real))
  {
    var m := Metrics(p);
    DistinctKeysUnique(m);
    PickSpec(m, wanted, i);
    PickSpec(m, wanted, 0);
    PickSpec(m, wanted, 1);
    PickSpec(m, wanted, 2);
  }

  datatype LiquidityOutcome =
    | PeriodUnknown(message: string, available: seq<string>)
    | Analysis(period: string, metrics: Value, ratios: Dict, data: PeriodData)

  /** A lone metric name is taken as a one-element list. */
  function MetricList(metrics: Value): Value {
    if metrics.VStr? then VList([metrics]) else metrics
  }

  /**
   * `handle_liquidity_analysis` without its message: the figures of a known
   * period and the metrics asked for. Err is the TypeError of a list or
   * dict period (it cannot be looked up) or of a `metrics` that is not a
   * container, or a division by zero.
   */
  function Liquidity(data: seq<(string, PeriodData)>, entities: Dict, show: Value -> string): Result<LiquidityOutcome> {
    var period := GetOr(entities, "time_period", VStr("current"));
    var metrics := MetricList(GetOr(entities, "metrics", VList([VStr("current_ratio"), VStr("quick_ratio"), VStr("cash_ratio")])));
    if !Hashable(period) then Err(Unhashable(period))
    else if !period.VStr? || Get(data, period.s).None? then
      Ok(PeriodUnknown("Data not available for time period: " + Str(period, show), Keys(data)))
    else if In("", metrics).None? then Err("argument of type is not iterable")
    else
      var p := Get(data, period.s).value;
      var ratios := Ratios(p, Wanted(metrics));
      if ratios.Err? then Err(ratios.error) else Ok(Analysis(period.s, metrics, ratios.value, p))
  }

  /** The entity dict a request with a period and a list of metrics arrives as. */
  function Request(period: string, metrics: seq<Value>): (e: Dict)
    ensures Get(e, "time_period") == Some(VStr(period))
    ensures Get(e, "metrics") == Some(VList(metrics))
  {
    var e := [("time_period", VStr(period)), ("metrics", VList(metrics))];
    GetDisplay2(e[0], e[1], "time_period");
    GetDisplay2(e[0], e[1], "metrics");
    e
  }

  /**
   * An unknown period lists the known ones. For a known period and a list of
   * metric names, exactly the listed metrics are computed, with the value
   * the period's figures give, and working capital is assets less
   * liabilities.
   */
  lemma LiquiditySpec(data: seq<(string, PeriodData)>, period: string, metrics: seq<Value>, show: Value -> string, m: nat)
    requires m < |MetricNames|
    ensures var r := Liquidity(data, Request(period, metrics), show);
      && (Get(data, period).None? ==> r == Ok(PeriodUnknown("Data not available for time period: " + period, Keys(data))))
      && (Get(data, period).Some? && Get(data, period).value.currentLiabilities != 0 ==>
            && r.Ok? && r.value.Analysis?
            && Get(r.value.ratios, MetricNames[m])
               == (if VStr(MetricNames[m]) in metrics then Get(Metrics(Get(data, period).value), MetricNames[m]) else None)
            && (VStr("working_capital") in metrics ==>
                  Get(r.value.ratios, "working_capital")
                  == Some(VInt(Get(data, period).value.currentAssets - Get(data, period).value.currentLiabilities))))
  {
    if Get(data, period).Some? && Get(data, period).value.currentLiabilities != 0 {
      var p := Get(data, period).value;
      var entries := Metrics(p);
      var wanted := Wanted(VList(metrics));
      DistinctKeysUnique(entries);
      assert Liquidity(data, Request(period, metrics), show) == Ok(Analysis(period, VList(metrics), Pick(entries, wanted), p));
      assert wanted[m] == (VStr(MetricNames[m]) in metrics);
      assert entries[m].0 == MetricNames[m] && entries[3].0 == "working_capital";
      PickSpec(entries, wanted, m);
      PickSpec(entries, wanted, 3);
      GetUnique(entries, entries[m].0, entries[m].1);
    }
  }

  /** A list or dict period raises the TypeError of the lookup before anything else. */
  lemma LiquidityUnhashable(data: seq<(string, PeriodData)>, entities: Dict, show: Value -> string, period: Value)
    requires Get(entities, "time_period") == Some(period) && !Hashable(period)
    ensures Liquidity(data, entities, show) == Err(Unhashable(period))
  {
  }

  /** Nothing but a metric appears among the ratios. */
  lemma OnlyMetrics(p: PeriodData, wanted: seq<bool>, k: string)
    requires |wanted| == |MetricNames|
    requires Ratios(p, wanted).Ok? && Get(Ratios(p, wanted).value, k).Some?
    ensures k in MetricNames
  {
    PickKeys(Metrics(p), wanted, k);
  }

  /** A single metric name behaves as the list holding just that name. */
  lemma LoneMetric(data: seq<(string, PeriodData)>, period: Value, metric: string, show: Value -> string)
    ensures Liquidity(data, [("time_period", period), ("metrics", VStr(metric))], show)
         == Liquidity(data, [("time_period", period), ("metrics", VList([VStr(metric)]))], show)
  {
    var e1 := [("time_period", period), ("metrics", VStr(metric))];
    var e2 := [("time_period", period), ("metrics", VList([VStr(metric)]))];
    GetDisplay2(e1[0], e1[1], "time_period");
    GetDisplay2(e1[0], e1[1], "metrics");
    GetDisplay2(e2[0], e2[1], "time_period");
    GetDisplay2(e2[0], e2[1], "metrics");
  }

  /** Every period of the table has liabilities to divide by, so every list of metrics is answered. */
  lemma SampleAnswers(period: string, metrics: seq<Value>, show: Value -> string)
    requires Get(LiquidityData, period).Some?
    ensures Liquidity(LiquidityData, Request(period, metrics), show).Ok?
  {
    GetSome(LiquidityData, period);
    LiquiditySpec(LiquidityData, period, metrics, show, 0);
  }
}
