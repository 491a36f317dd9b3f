/**
 * The accounting handlers: resolving a named date range, looking up ledger
 * accounts by number or by name, the ledger summary by account type,
 * journal-entry totals, and the reconciliation summary.
 *
 * The sample tables the handlers hard-code are parameters here, except the
 * reconciliation table, which is needed to exhibit the missing-key error of
 * the comparison balance. Transactions are random and the analyses come from
 * the language model, so neither is modelled.
 */
module Accounting {
  import opened Wrappers
  import opened OrderedDict
  import opened Values
  import opened Strings
  import opened Sorting
  import opened Dates

  // ---------------------------------------------------------------------------
  // Date ranges.

  /** A reporting period as the two strings the handler reports. */
  datatype Span = Span(start: string, end: string)

  /** `((month - 1) // 3) * 3 + 1`. */
  function QuarterStart(month: int): (r: int)
    requires 1 <= month <= 12
    ensures r % 3 == 1 && r <= month < r + 3
  {
    ((month - 1) / 3) * 3 + 1
  }

  /** The first of this month through today: the default period. */
  function ThisMonth(today: Date): Span
    requires Valid(today)
  {
    Span(Iso(Date(today.year, today.month, 1)), Iso(today))
  }

  /**
   * The period of `handle_general_ledger`. Err is the ValueError of
   * stepping back from January of year 1; a custom range is any string with
   * exactly one ':', and every other shape falls back to this month.
   */
  function DateRange(range: Value, today: Date): Result<Span>
    requires Valid(today)
  {
    if range == VStr("current_month") then Ok(ThisMonth(today))
    else if range == VStr("previous_month") then
      if today.month == 1 then
        if today.year == 1 then Err("year 0 is out of range")
        else Ok(Span(Iso(Date(today.year - 1, 12, 1)), Iso(Date(today.year - 1, 12, 31))))
      else
        var last := DaysInMonth(today.year, today.month - 1);
        Ok(Span(Iso(Date(today.year, today.month - 1, 1)), Iso(Date(today.year, today.month - 1, last))))
    else if range == VStr("ytd") then Ok(Span(Iso(Date(today.year, 1, 1)), Iso(today)))
    else if range == VStr("quarter") then Ok(Span(Iso(Date(today.year, QuarterStart(today.month), 1)), Iso(today)))
    else if range.VStr? && |SplitOn(range.s, ':')| == 2 then
      var parts := SplitOn(range.s, ':');
      Ok(Span(parts[0], parts[1]))
    else Ok(ThisMonth(today))
  }

  /**
   * "current_month", "ytd" and "quarter" run from the first of a month in
   * this year, no later than today, up to today; the window is one month,
   * twelve months and three months long respectively.
   */
  lemma ToDateRange(range: string, today: Date)
    requires Valid(today) && (range == "current_month" || range == "ytd" || range == "quarter")
    ensures var month := if range == "current_month" then today.month else if range == "ytd" then 1 else QuarterStart(today.month);
      var first := Date(today.year, month, 1);
      var window := if range == "current_month" then 1 else if range == "ytd" then 12 else 3;
      && Valid(first) && !Before(today, first)
      && StrLe(Iso(first), Iso(today))
      && 0 <= MonthIndex(today) - MonthIndex(first) < window
      && DateRange(VStr(range), today) == Ok(Span(Iso(first), Iso(today)))
  {
    var month := if range == "current_month" then today.month else if range == "ytd" then 1 else QuarterStart(today.month);
    IsoOrder(Date(today.year, month, 1), today);
  }

  /**
   * "previous_month" is the whole month before this one: from its first day
   * to the day before the first of this month, January stepping back a year.
   */
  lemma PreviousMonthRange(today: Date)
    requires Valid(today) && !(today.year == 1 && today.month == 1)
    ensures var first := AtMonthIndex(MonthIndex(today) - 1, 1);
      var last := Date(first.year, first.month, DaysInMonth(first.year, first.month));
      && Valid(first) && Valid(last) && first.day == 1
      && MonthIndex(first) == MonthIndex(today) - 1
      && Ordinal(last) + 1 == Ordinal(Date(today.year, today.month, 1))
      && DateRange(VStr("previous_month"), today) == Ok(Span(Iso(first), Iso(last)))
  {
    var first := AtMonthIndex(MonthIndex(today) - 1, 1);
    assert "previous_month" != "current_month";
    DayBeforeFirst(today.year, today.month);
    if today.month == 1 {
      assert first == Date(today.year - 1, 12, 1);
      assert DateRange(VStr("previous_month"), today) == Ok(Span(Iso(first), Iso(Date(today.year - 1, 12, 31))));
    } else {
      assert first == Date(today.year, today.month - 1, 1);
      var last := Date(today.year, today.month - 1, DaysInMonth(today.year, today.month - 1));
      assert DateRange(VStr("previous_month"), today) == Ok(Span(Iso(first), Iso(last)));
    }
  }

  /** Stepping back from January of year 1 is the ValueError of `replace(year=0)`. */
  lemma PreviousMonthOfYearOne(today: Date)
    requires Valid(today) && today.year == 1 && today.month == 1
    ensures DateRange(VStr("previous_month"), today).Err?
  {
  }

  /**
   * Any other string with exactly one ':' is split there into the two ends;
   * any other string, and any value that is not a string, gives this month.
   */
  lemma CustomRange(range: Value, today: Date)
    requires Valid(today)
    requires range.VStr? ==> range.s !in ["current_month", "previous_month", "ytd", "quarter"]
    ensures var r := DateRange(range, today);
      && r.Ok?
      && (range.VStr? && Count(range.s, ':') == 1 ==>
            r.value.start + ":" + r.value.end == range.s
            && Count(r.value.start, ':') == 0 && Count(r.value.end, ':') == 0)
      && (!range.VStr? || Count(range.s, ':') != 1 ==> r.value == ThisMonth(today))
  {
    if range.VStr? {
      var parts := SplitOn(range.s, ':');
      SplitOnSpec(range.s, ':');
      if |parts| == 2 {
        assert Join(parts, ":") == parts[0] + ":" + Join(parts[1..], ":");
        assert Count(parts[0], ':') == 0 && Count(parts[1], ':') == 0;
      }
    }
  }

  // ---------------------------------------------------------------------------
  // Ledger accounts.

  datatype Account = Account(name: string, kind: string, category: string, balance: int, normalBalance: string)

  /** The chart of accounts, keyed by account number. */
  type Ledger = seq<(string, Account)>

  /** `f"{num}: {name}"` for every account, in table order. */
  function Available(ledger: Ledger): (r: seq<string>)
    ensures |r| == |ledger|
  {
    seq(|ledger|, i requires 0 <= i < |ledger| => ledger[i].0 + ": " + ledger[i].1.name)
  }

  /** `query.lower() in name.lower()`. */
  predicate NameMatches(name: string, query: string) {
    Contains(Lower(name), Lower(query))
  }

  /** The accounts whose name contains the query, ignoring case. */
  function AccountsNamed(ledger: Ledger, query: string): Ledger {
    Filter(ledger, (n: string, a: Account) => NameMatches(a.name, query))
  }

  function Balance(a: Account): int { a.balance }

  /** `sum(acct["balance"] for acct in accounts)`. */
  function GroupBalance(accounts: Ledger): int {
    SumValues(accounts, Balance)
  }

  function GroupSize(accounts: Ledger): int { |accounts| }

  /** `acct["type"] == kind`. */
  function IsKind(kind: string): (string, Account) -> bool {
    (n: string, a: Account) => a.kind == kind
  }

  /** The accounts of one type, in table order. */
  function OfKind(ledger: Ledger, kind: string): Ledger {
    Filter(ledger, IsKind(kind))
  }

  /** `sum(acct["balance"] for acct in gl_accounts.values() if acct["type"] == kind)`. */
  function KindTotal(ledger: Ledger, kind: string): int {
    GroupBalance(OfKind(ledger, kind))
  }

  /** Appending an account to its type's list, creating the list on first sight. */
  function AddAccount(groups: seq<(string, Ledger)>, number: string, a: Account): seq<(string, Ledger)> {
    Set(groups, a.kind, GetOr(groups, a.kind, []) + [(number, a)])
  }

  /** `accounts_by_type`, built by visiting the accounts in order. */
  function GroupByKind(ledger: Ledger): seq<(string, Ledger)> {
    if |ledger| == 0 then []
    else AddAccount(GroupByKind(ledger[..|ledger| - 1]), ledger[|ledger| - 1].0, ledger[|ledger| - 1].1)
  }

  datatype LedgerSummary = LedgerSummary(
    byKind: seq<(string, Ledger)>, totals: seq<(string, int)>,
    assets: int, liabilities: int, equity: int, revenue: int, expenses: int, netIncome: int)

  /** The summary of all accounts. */
  function Summarize(ledger: Ledger): LedgerSummary {
    var groups := GroupByKind(ledger);
    var revenue, expenses := KindTotal(ledger, "revenue"), KindTotal(ledger, "expense");
    LedgerSummary(groups, MapValues(groups, GroupBalance),
      KindTotal(ledger, "asset"), KindTotal(ledger, "liability"), KindTotal(ledger, "equity"),
      revenue, expenses, revenue - expenses)
  }

  /** Each type present lists exactly its accounts, in table order; absent types have no list. */
  lemma {:induction false} GroupByKindSpec(ledger: Ledger, kind: string)
    ensures Get(GroupByKind(ledger), kind) == if OfKind(ledger, kind) == [] then None else Some(OfKind(ledger, kind))
    decreases |ledger|
  {
    if |ledger| > 0 {
      var init, last := ledger[..|ledger| - 1], ledger[|ledger| - 1];
      var before := GroupByKind(init);
      var g := GetOr(before, last.1.kind, []);
      GroupByKindSpec(init, kind);
      FilterLast(ledger, IsKind(kind));
      SetSpec(before, last.1.kind, g + [last]);
      assert GroupByKind(ledger) == Set(before, last.1.kind, g + [last]);
      if last.1.kind == kind {
        assert IsKind(kind)(last.0, last.1);
        assert OfKind(ledger, kind) == OfKind(init, kind) + [last];
        assert g == OfKind(init, kind);
      } else {
        assert !IsKind(kind)(last.0, last.1);
        assert OfKind(ledger, kind) == OfKind(init, kind);
      }
    }
  }

  /** The lists share out the accounts: their sizes add up to the table, their balances to its total. */
  lemma {:induction false} GroupByKindSums(ledger: Ledger)
    ensures SumValues(GroupByKind(ledger), GroupSize) == |ledger|
    ensures SumValues(GroupByKind(ledger), GroupBalance) == SumValues(ledger, Balance)
    decreases |ledger|
  {
    if |ledger| > 0 {
      var init, last := ledger[..|ledger| - 1], ledger[|ledger| - 1];
      var before := GroupByKind(init);
      var g := GetOr(before, last.1.kind, []);
      GroupByKindSums(init);
      SumValuesLast(ledger, Balance);
      SumValuesLast(g + [last], Balance);
      assert (g + [last])[..|g|] == g;
      SetSum(before, last.1.kind, g + [last], GroupSize);
      SetSum(before, last.1.kind, g + [last], GroupBalance);
    }
  }

  /**
   * Each type's total is the sum of that type's balances; the five headline
   * totals agree with the per-type totals; net income is revenue less
   * expenses; and the per-type totals add up to the whole table.
   */
  lemma SummarizeSpec(ledger: Ledger, kind: string)
    ensures var s := Summarize(ledger);
      && Get(s.totals, kind) == (if OfKind(ledger, kind) == [] then None else Some(KindTotal(ledger, kind)))
      && s.assets == GetOr(s.totals, "asset", 0)
      && s.liabilities == GetOr(s.totals, "liability", 0)
      && s.equity == GetOr(s.totals, "equity", 0)
      && s.netIncome == GetOr(s.totals, "revenue", 0) - GetOr(s.totals, "expense", 0)
      && SumValues(s.totals, (n: int) => n) == SumValues(ledger, Balance)
  {
    TotalsByKind(ledger, kind);
    TotalsByKind(ledger, "asset");
    TotalsByKind(ledger, "liability");
    TotalsByKind(ledger, "equity");
    TotalsByKind(ledger, "revenue");
    TotalsByKind(ledger, "expense");
    GroupByKindSums(ledger);
    SumMapValues(GroupByKind(ledger), GroupBalance);
  }

  /** `totals_by_type[kind]` is the type's total, and reads as 0 for a type with no accounts. */
  lemma TotalsByKind(ledger: Ledger, kind: string)
    ensures var totals := MapValues(GroupByKind(ledger), GroupBalance);
      && Get(totals, kind) == (if OfKind(ledger, kind) == [] then None else Some(KindTotal(ledger, kind)))
      && GetOr(totals, kind, 0) == KindTotal(ledger, kind)
  {
    GroupByKindSpec(ledger, kind);
    GetMapValues(GroupByKind(ledger), GroupBalance, kind);
  }

  datatype GlOutcome =
    | AccountDetail(number: string, account: Account)
    | NoAccount(message: string, available: seq<string>)
    | AccountMatches(matches: Ledger)
    | LedgerOverview(summary: LedgerSummary)

  datatype GlResponse = GlResponse(span: Span, outcome: GlOutcome)

  /**
   * The two `strptime(..., "%Y-%m-%d")` calls and the `randint(0, days)` of
   * `generate_sample_transactions`: the period's ends as dates, or the
   * ValueError of an end that is not a date or of an end before the start.
   */
  function SampleWindow(span: Span): Result<(Date, Date)> {
    match (ParseIso(span.start), ParseIso(span.end))
    case (None, _) => Err("time data '" + span.start + "' does not match format '%Y-%m-%d'")
    case (_, None) => Err("time data '" + span.end + "' does not match format '%Y-%m-%d'")
    case (Some(a), Some(b)) => if Before(b, a) then Err("empty range for randrange()") else Ok((a, b))
  }

  /**
   * `handle_general_ledger` without its transactions and analysis: an account
   * by number, whose sample transactions need a period of two dates in
   * order, else the accounts matching a name (one match is looked up again
   * by its number), else the summary. Err is an exception raised.
   */
  function GeneralLedger(ledger: Ledger, number: Value, name: Value, range: Value, today: Date, show: Value -> string): Result<GlResponse>
    requires Valid(today)
    decreases if Truthy(name) then 1 else 0
  {
    var span := DateRange(range, today);
    if span.Err? then Err(span.error)
    else if Truthy(number) then
      if !Hashable(number) then Err(Unhashable(number))
      else if number.VStr? && Get(ledger, number.s).Some? then
        var window := SampleWindow(span.value);
        if window.Err? then Err(window.error)
        else Ok(GlResponse(span.value, AccountDetail(number.s, Get(ledger, number.s).value)))
      else Ok(GlResponse(span.value, NoAccount("Account " + Str(number, show) + " not found", Available(ledger))))
    else if Truthy(name) then
      if !name.VStr? then Err("object has no attribute 'lower'")
      else
        var matches := AccountsNamed(ledger, name.s);
        if |matches| == 0 then Ok(GlResponse(span.value, NoAccount("No accounts found matching '" + name.s + "'", Available(ledger))))
        else if |matches| == 1 then GeneralLedger(ledger, VStr(matches[0].0), VNone, range, today, show)
        else Ok(GlResponse(span.value, AccountMatches(matches)))
    else Ok(GlResponse(span.value, LedgerOverview(Summarize(ledger))))
  }

  /**
   * A known number gives its account, provided its period is two dates in
   * order; an unknown one lists every account.
   */
  lemma LedgerByNumber(ledger: Ledger, number: string, range: Value, today: Date, show: Value -> string)
    requires Valid(today) && number != ""
    ensures var r := GeneralLedger(ledger, VStr(number), VNone, range, today, show);
      && (r.Ok? <==>
            DateRange(range, today).Ok? && (Get(ledger, number).Some? ==> SampleWindow(DateRange(range, today).value).Ok?))
      && (r.Ok? ==> r.value.span == DateRange(range, today).value)
      && (r.Ok? && Get(ledger, number).Some? ==> r.value.outcome == AccountDetail(number, Get(ledger, number).value))
      && (r.Ok? && Get(ledger, number).None? ==>
            r.value.outcome == NoAccount("Account " + number + " not found", Available(ledger)))
  {
  }

  /**
   * A name selects the accounts whose names contain it, ignoring case: none
   * lists every account, a single one is that account's detail (raising as
   * the number path does on a period that is not two dates in order),
   * several are listed as they are.
   */
  lemma LedgerByName(ledger: Ledger, name: string, range: Value, today: Date, show: Value -> string)
    requires Valid(today) && Unique(ledger) && name != "" && DateRange(range, today).Ok?
    ensures var r := GeneralLedger(ledger, VNone, VStr(name), range, today, show);
      var matches := AccountsNamed(ledger, name);
      && (r.Ok? <==> !(|matches| == 1 && matches[0].0 != "") || SampleWindow(DateRange(range, today).value).Ok?)
      && (forall p :: p in matches <==> p in ledger && NameMatches(p.1.name, name))
      && (|matches| == 0 ==> r.value.outcome == NoAccount("No accounts found matching '" + name + "'", Available(ledger)))
      && (|matches| == 1 && matches[0].0 != "" && r.Ok? ==> r.value.outcome == AccountDetail(matches[0].0, matches[0].1))
      && (|matches| > 1 ==> r.value.outcome == AccountMatches(matches))
  {
    var matches := AccountsNamed(ledger, name);
    FilterSpec(ledger, (n: string, a: Account) => NameMatches(a.name, name));
    if |matches| == 1 && matches[0].0 != "" {
      assert matches[0] in matches;
      GetUnique(ledger, matches[0].0, matches[0].1);
      GetSome(ledger, matches[0].0);
      LedgerByNumber(ledger, matches[0].0, range, today, show);
    }
  }

  /**
   * The named periods run from a date to a date no earlier, so an account's
   * sample transactions can always be drawn over them.
   */
  lemma PresetWindows(range: string, today: Date)
    requires Valid(today) && range in ["current_month", "previous_month", "ytd", "quarter"]
    requires DateRange(VStr(range), today).Ok?
    ensures var span := DateRange(VStr(range), today).value;
      && ParseIso(span.start).Some? && ParseIso(span.end).Some?
      && !Before(ParseIso(span.end).value, ParseIso(span.start).value)
      && SampleWindow(span).Ok?
  {
    if range == "previous_month" {
      PreviousMonthRange(today);
      var first := AtMonthIndex(MonthIndex(today) - 1, 1);
      var last := Date(first.year, first.month, DaysInMonth(first.year, first.month));
      ParseIsoIso(first);
      ParseIsoIso(last);
    } else {
      ToDateRange(range, today);
      var month := if range == "current_month" then today.month else if range == "ytd" then 1 else QuarterStart(today.month);
      ParseIsoIso(Date(today.year, month, 1));
      ParseIsoIso(today);
    }
  }

  /** A custom period written as two ISO dates reads as those two texts. */
  lemma IsoRange(a: Date, b: Date, today: Date)
    requires Valid(today) && Valid(a) && Valid(b)
    ensures DateRange(VStr(Iso(a) + ":" + Iso(b)), today) == Ok(Span(Iso(a), Iso(b)))
  {
    IsoNoColon(a);
    IsoNoColon(b);
    SplitOnPair(Iso(a), Iso(b), ':');
    assert |Iso(a) + ":" + Iso(b)| == 21;
  }

  /** Over the ISO texts of two dates, sample transactions can be drawn exactly when the dates are in order. */
  lemma IsoWindow(a: Date, b: Date)
    requires Valid(a) && Valid(b)
    ensures SampleWindow(Span(Iso(a), Iso(b))) == if Before(b, a) then Err("empty range for randrange()") else Ok((a, b))
  {
    ParseIsoIso(a);
    ParseIsoIso(b);
  }

  /** A custom period whose end is an earlier date than its start raises once an account is found. */
  lemma ReversedRangeRaises(ledger: Ledger, number: string, a: Date, b: Date, today: Date, show: Value -> string)
    requires Valid(today) && Valid(a) && Valid(b) && Before(b, a)
    requires number != "" && Get(ledger, number).Some?
    ensures DateRange(VStr(Iso(a) + ":" + Iso(b)), today) == Ok(Span(Iso(a), Iso(b)))
    ensures GeneralLedger(ledger, VStr(number), VNone, VStr(Iso(a) + ":" + Iso(b)), today, show).Err?
  {
    IsoRange(a, b, today);
    IsoWindow(a, b);
    LedgerByNumber(ledger, number, VStr(Iso(a) + ":" + Iso(b)), today, show);
  }

  /** A custom period whose ends are not dates, such as "a:b", raises once an account is found. */
  lemma NonDateRangeRaises(ledger: Ledger, number: string, today: Date, show: Value -> string)
    requires Valid(today) && number != "" && Get(ledger, number).Some?
    ensures DateRange(VStr("a:b"), today) == Ok(Span("a", "b"))
    ensures GeneralLedger(ledger, VStr(number), VNone, VStr("a:b"), today, show).Err?
  {
    SplitOnPair("a", "b", ':');
    assert "a" + [':'] + "b" == "a:b";
  }

  // ---------------------------------------------------------------------------
  // Journal entries.

  datatype Line = Line(account: string, description: string, debit: int, credit: int)

  datatype JournalEntry = JournalEntry(date: string, description: string, status: string, lines: seq<Line>)

  function Debits(lines: seq<Line>): int {
    if |lines| == 0 then 0 else lines[0].debit + Debits(lines[1..])
  }

  function Credits(lines: seq<Line>): int {
    if |lines| == 0 then 0 else lines[0].credit + Credits(lines[1..])
  }

  /** Each line's debit less its credit, added up. */
  function Net(lines: seq<Line>): int {
    if |lines| == 0 then 0 else (lines[0].debit - lines[0].credit) + Net(lines[1..])
  }

  /** An entry balances exactly when its lines net to zero. */
  lemma {:induction false} BalancedIffNetZero(lines: seq<Line>)
    ensures Net(lines) == Debits(lines) - Credits(lines)
    ensures Debits(lines) == Credits(lines) <==> Net(lines) == 0
  {
    if |lines| > 0 {
      BalancedIffNetZero(lines[1..]);
    }
  }

  /** `gl_accounts[line["account"]]["name"]` for each line; None is the KeyError of an unknown account. */
  function AccountNames(ledger: Ledger, lines: seq<Line>): (r: Option<seq<string>>)
    ensures r.Some? <==> forall i :: 0 <= i < |lines| ==> Get(ledger, lines[i].account).Some?
    ensures r.Some? ==> (|r.value| == |lines|
      && forall i :: 0 <= i < |lines| ==> r.value[i] == Get(ledger, lines[i].account).value.name)
  {
    if |lines| == 0 then Some([])
    else
      var head := Get(ledger, lines[0].account);
      var rest := AccountNames(ledger, lines[1..]);
      if head.None? then None
      else if rest.None? then
        assert exists i :: 1 <= i < |lines| && Get(ledger, lines[i].account).None? by {
          var j :| 0 <= j < |lines[1..]| && Get(ledger, lines[1..][j].account).None?;
          assert lines[1..][j] == lines[j + 1];
        }
        None
      else
        var r := [head.value.name] + rest.value;
        assert forall i :: 1 <= i < |lines| ==> r[i] == rest.value[i - 1] && lines[i] == lines[1..][i - 1];
        Some(r)
  }

  datatype EntrySummary = EntrySummary(number: string, date: string, description: string, amount: int, status: string, lineCount: nat)

  datatype JournalOutcome =
    | EntryNotFound(message: string, available: seq<string>)
    | EntryDetail(number: string, entry: JournalEntry, accountNames: seq<string>, totalDebits: int, totalCredits: int, balanced: bool)
    | TemplateRequested(entryType: Value, templateNumber: string)
    | RecentEntries(entries: seq<EntrySummary>)

  /** Dates descending: `sorted(..., key=date, reverse=True)`, which keeps equal dates in table order. */
  predicate Later(p: (string, JournalEntry), q: (string, JournalEntry)) {
    StrLe(q.1.date, p.1.date)
  }

  /** The line of the recent-entries list: the amount is the entry's total debits. */
  function Summary(p: (string, JournalEntry)): EntrySummary {
    EntrySummary(p.0, p.1.date, p.1.description, Debits(p.1.lines), p.1.status, |p.1.lines|)
  }

  function Summaries(entries: seq<(string, JournalEntry)>): (r: seq<EntrySummary>)
    ensures |r| == |entries|
  {
    seq(|entries|, i requires 0 <= i < |entries| => Summary(entries[i]))
  }

  /** `f"JE-{now:%Y%m%d}-NEW"`. */
  function TemplateNumber(now: Date): string
    requires Valid(now)
  {
    "JE-" + Digits(now.year, 4) + Digits(now.month, 2) + Digits(now.day, 2) + "-NEW"
  }

  /** The exception `f"{amount:,.2f}"` raises on a value that is not a number. */
  function AmountFormatError(amount: Value): string {
    match amount
    case VStr(_) => "Unknown format code 'f' for object of type 'str'"
    case VList(_) => "unsupported format string passed to list.__format__"
    case VDict(_) => "unsupported format string passed to dict.__format__"
    case VOpaque(name) => "unsupported format string passed to " + name + ".__format__"
    case _ => "unsupported format string passed to NoneType.__format__"
  }

  /**
   * `handle_journal_entry` without the template text: an entry by number,
   * else a template request (whose prompt formats a given amount with
   * `:,.2f`), else the entries newest first.
   */
  function Journal(ledger: Ledger, entries: seq<(string, JournalEntry)>, number: Value, entryType: Value, amount: Value,
                   now: Date, show: Value -> string): Result<JournalOutcome>
    requires Valid(now)
  {
    if Truthy(number) then
      if !Hashable(number) then Err(Unhashable(number))
      else if !number.VStr? || Get(entries, number.s).None? then
        Ok(EntryNotFound("Journal entry " + Str(number, show) + " not found", Keys(entries)))
      else
        var e := Get(entries, number.s).value;
        var names := AccountNames(ledger, e.lines);
        if names.None? then Err("KeyError")
        else
          var debits, credits := Debits(e.lines), Credits(e.lines);
          Ok(EntryDetail(number.s, e, names.value, debits, credits, debits == credits))
    else if Truthy(entryType) then
      if Truthy(amount) && !Formattable(amount) then Err(AmountFormatError(amount))
      else Ok(TemplateRequested(entryType, TemplateNumber(now)))
    else Ok(RecentEntries(Summaries(SortBy(entries, Later))))
  }

  lemma LaterIsOrder()
    ensures Total(Later) && Transitive(Later)
  {
    forall p, q ensures Later(p, q) || Later(q, p) {
      StrLeTotal(p.1.date, q.1.date);
    }
    forall p, q, r | Later(p, q) && Later(q, r) ensures Later(p, r) {
      StrLeTransitive(r.1.date, q.1.date, p.1.date);
    }
  }

  /**
   * A known entry reports its totals, balanced exactly when its lines net to
   * zero, and the ledger name of every line's account; a line on an unknown
   * account is an error. An unknown number lists the known ones.
   */
  lemma JournalByNumber(ledger: Ledger, entries: seq<(string, JournalEntry)>, number: string, now: Date, show: Value -> string)
    requires Valid(now) && number != ""
    ensures var r := Journal(ledger, entries, VStr(number), VNone, VNone, now, show);
      && (Get(entries, number).None? ==> r == Ok(EntryNotFound("Journal entry " + number + " not found", Keys(entries))))
      && (Get(entries, number).Some? ==>
            var lines := Get(entries, number).value.lines;
            && (r.Ok? <==> forall i :: 0 <= i < |lines| ==> Get(ledger, lines[i].account).Some?)
            && (r.Ok? ==>
                  && r.value.EntryDetail?
                  && r.value.totalDebits == Debits(lines) && r.value.totalCredits == Credits(lines)
                  && (r.value.balanced <==> Net(lines) == 0)
                  && |r.value.accountNames| == |lines|
                  && forall i :: 0 <= i < |lines| ==> r.value.accountNames[i] == Get(ledger, lines[i].account).value.name))
  {
    var r := Journal(ledger, entries, VStr(number), VNone, VNone, now, show);
    assert Truthy(VStr(number));
    if Get(entries, number).Some? {
      var e := Get(entries, number).value;
      var lines := e.lines;
      BalancedIffNetZero(lines);
      var names := AccountNames(ledger, lines);
      if names.Some? {
        assert r == Ok(EntryDetail(number, e, names.value, Debits(lines), Credits(lines), Debits(lines) == Credits(lines)));
      } else {
        assert r == Err("KeyError");
        var i :| 0 <= i < |lines| && Get(ledger, lines[i].account).None?;
        assert !forall i :: 0 <= i < |lines| ==> Get(ledger, lines[i].account).Some?;
      }
    } else {
      assert Str(VStr(number), show) == number;
      assert r == Ok(EntryNotFound("Journal entry " + number + " not found", Keys(entries)));
    }
  }

  /**
   * Without a number or a type the handler lists every entry once, newest
   * first, each with its total debits and its number of lines.
   */
  lemma RecentEntriesSpec(ledger: Ledger, entries: seq<(string, JournalEntry)>, now: Date, show: Value -> string)
    requires Valid(now)
    ensures var sorted := SortBy(entries, Later);
      var r := Journal(ledger, entries, VNone, VNone, VNone, now, show);
      && multiset(sorted) == multiset(entries)
      && r == Ok(RecentEntries(Summaries(sorted)))
      && |r.value.entries| == |entries|
      && (forall i, j :: 0 <= i < j < |sorted| ==> StrLe(r.value.entries[j].date, r.value.entries[i].date))
      && forall i :: 0 <= i < |sorted| ==>
           r.value.entries[i].amount == Debits(sorted[i].1.lines) && r.value.entries[i].lineCount == |sorted[i].1.lines|
  {
    LaterIsOrder();
    SortBySpec(entries, Later);
  }

  // ---------------------------------------------------------------------------
  // Reconciliations.

  datatype Item = Item(date: string, description: string, amount: int, status: string)

  /**
   * With a type and no number a template is asked for, and it fails exactly
   * when an amount is given that `:,.2f` cannot format: a non-empty text
   * amount, as an extracted entity usually is, raises.
   */
  lemma JournalTemplate(ledger: Ledger, entries: seq<(string, JournalEntry)>, entryType: Value, amount: Value,
                        now: Date, show: Value -> string)
    requires Valid(now) && Truthy(entryType)
    ensures var r := Journal(ledger, entries, VNone, entryType, amount, now, show);
      && (r.Ok? <==> !Truthy(amount) || Formattable(amount))
      && (r.Ok? ==> r.value == TemplateRequested(entryType, TemplateNumber(now)))
      && (amount.VStr? && amount.s != "" ==> r == Err("Unknown format code 'f' for object of type 'str'"))
  {
  }

  /**
   * One account's reconciliation. The figure the ledger balance is compared
   * with sits under a key of its own in `figures`: "bank_balance",
   * "subledger_balance" or "physical_count".
   */
  datatype Reconciliation = Reconciliation(
    accountName: string, kind: string, asOf: string, glBalance: int, figures: seq<(string, int)>,
    reconciledBalance: int, items: seq<Item>, status: string, lastReconciled: string)

  /** The key the handler reads the comparison figure from: `f"{type}_balance"`. */
  function WrittenKey(kind: string): string {
    kind + "_balance"
  }

  /** The key each reconciliation type actually stores its comparison figure under. */
  function ComparisonKey(kind: string): string {
    if kind == "physical" then "physical_count" else kind + "_balance"
  }

  /** The reconciliation table of `handle_account_reconciliation`. */
  const SampleReconciliations: seq<(string, Reconciliation)> := [
    ("1000", Reconciliation("Cash", "bank", "2025-03-31", 1250000, [("bank_balance", 1275000)], 1250000,
       [Item("2025-03-30", "Check #12345", -15000, "outstanding"), Item("2025-03-31", "Deposit in transit", 40000, "in_transit"),
        Item("2025-03-29", "Bank fee", -50, "unrecorded")], "in_progress", "2025-02-28")),
    ("1010", Reconciliation("Accounts Receivable", "subledger", "2025-03-31", 850000, [("subledger_balance", 852500)], 850000,
       [Item("2025-03-31", "Customer payment not posted", -2500, "timing")], "complete", "2025-02-28")),
    ("1020", Reconciliation("Inventory", "physical", "2025-03-31", 750000, [("physical_count", 758000)], 750000,
       [Item("2025-03-31", "Goods in transit", -5000, "timing"), Item("2025-03-30", "Count discrepancy", 3000, "unexplained")],
       "in_progress", "2025-02-28")),
    ("2000", Reconciliation("Accounts Payable", "subledger", "2025-03-31", 650000, [("subledger_balance", 647500)], 650000,
       [Item("2025-03-31", "Vendor invoice not entered", 2500, "timing")], "complete", "2025-02-28"))
  ]

  /** The comparison figure under the key `key` picks; None is the KeyError. */
  function Comparison(r: Reconciliation, key: string -> string): Option<int> {
    Get(r.figures, key(r.kind))
  }

  /** Every reconciliation has its comparison figure under the key `key` picks. */
  predicate HasFigures(recs: seq<(string, Reconciliation)>, key: string -> string) {
    forall i :: 0 <= i < |recs| ==> Comparison(recs[i].1, key).Some?
  }

  function ItemTotal(items: seq<Item>): int {
    if |items| == 0 then 0 else items[0].amount + ItemTotal(items[1..])
  }

  datatype RecRow = RecRow(number: string, accountName: string, kind: string, status: string,
                           glBalance: int, comparison: int, difference: int, unreconciledCount: nat)

  /** The summary's list of reconciliations; None is the KeyError of a missing comparison figure. */
  function Rows(recs: seq<(string, Reconciliation)>, key: string -> string): (rows: Option<seq<RecRow>>)
    ensures rows.Some? <==> HasFigures(recs, key)
    ensures rows.Some? ==> |rows.value| == |recs| && forall i :: 0 <= i < |recs| ==>
      var r := recs[i].1;
      rows.value[i] == RecRow(recs[i].0, r.accountName, r.kind, r.status, r.glBalance,
                              Comparison(r, key).value, r.glBalance - Comparison(r, key).value, |r.items|)
  {
    if |recs| == 0 then Some([])
    else
      var r := recs[0].1;
      var c := Comparison(r, key);
      var rest := Rows(recs[1..], key);
      if c.None? then None
      else if rest.None? then
        assert !HasFigures(recs, key) by {
          var j :| 0 <= j < |recs[1..]| && Comparison(recs[1..][j].1, key).None?;
          assert recs[1..][j] == recs[j + 1];
        }
        None
      else
        var rows := [RecRow(recs[0].0, r.accountName, r.kind, r.status, r.glBalance, c.value, r.glBalance - c.value, |r.items|)] + rest.value;
        assert forall i :: 1 <= i < |recs| ==> rows[i] == rest.value[i - 1] && recs[i] == recs[1..][i - 1];
        Some(rows)
  }

  /** `sum(1 for recon in ... if recon["status"] == status)`. */
  function StatusCount(recs: seq<(string, Reconciliation)>, status: string): (n: nat)
    ensures n <= |recs|
  {
    if |recs| == 0 then 0 else (if recs[0].1.status == status then 1 else 0) + StatusCount(recs[1..], status)
  }

  datatype RecStatistics = RecStatistics(total: nat, complete: nat, inProgress: nat, notStarted: nat, percentage: real)

  function Statistics(recs: seq<(string, Reconciliation)>): RecStatistics {
    var complete := StatusCount(recs, "complete");
    RecStatistics(|recs|, complete, StatusCount(recs, "in_progress"), StatusCount(recs, "not_started"),
      if |recs| > 0 then complete as real / |recs| as real * 100.0 else 0.0)
  }

  /** The three status counts never add up to more than the reconciliations counted. */
  lemma {:induction false} StatusCountsBounded(recs: seq<(string, Reconciliation)>)
    ensures StatusCount(recs, "complete") + StatusCount(recs, "in_progress") + StatusCount(recs, "not_started") <= |recs|
  {
    if |recs| > 0 {
      StatusCountsBounded(recs[1..]);
    }
  }

  /** The counts fit in the total, and the percentage is between 0 and 100, and 0 when there is nothing. */
  lemma StatisticsSpec(recs: seq<(string, Reconciliation)>)
    ensures var s := Statistics(recs);
      && s.total == |recs|
      && s.complete + s.inProgress + s.notStarted <= s.total
      && 0.0 <= s.percentage <= 100.0
      && (s.total == 0 ==> s.percentage == 0.0)
      && (s.total > 0 && s.complete == s.total ==> s.percentage == 100.0)
  {
    StatusCountsBounded(recs);
    if |recs| > 0 {
      ShareBounds(StatusCount(recs, "complete") as real, |recs| as real);
    }
  }

  /** A share of a positive whole, as a percentage, lies between 0 and 100, and is 100 for the whole. */
  lemma ShareBounds(c: real, t: real)
    requires 0.0 <= c <= t && 0.0 < t
    ensures 0.0 <= c / t * 100.0 <= 100.0
    ensures c == t ==> c / t * 100.0 == 100.0
  {
    var q := c / t;
    assert q * t == c;
  }

  /** `reconciliation_type != "all"` keeps only the reconciliations of that type. */
  function Selected(recs: seq<(string, Reconciliation)>, kind: Value): seq<(string, Reconciliation)> {
    if kind == VStr("all") then recs else Filter(recs, (n: string, r: Reconciliation) => VStr(r.kind) == kind)
  }

  lemma SelectedSpec(recs: seq<(string, Reconciliation)>, kind: Value)
    ensures kind == VStr("all") ==> Selected(recs, kind) == recs
    ensures kind != VStr("all") ==> forall p :: p in Selected(recs, kind) <==> p in recs && VStr(p.1.kind) == kind
  {
    FilterSpec(recs, (n: string, r: Reconciliation) => VStr(r.kind) == kind);
  }

  datatype RecOutcome =
    | RecNotFound(message: string, available: seq<string>)
    | RecDetail(number: string, record: Reconciliation, comparison: int, difference: int, totalUnreconciled: int)
    | RecMatches(matches: seq<(string, Reconciliation)>)
    | RecSummary(statistics: RecStatistics, rows: seq<RecRow>)

  /** `f"{num}: {account_name}"` for every reconciliation. */
  function RecAvailable(recs: seq<(string, Reconciliation)>): (r: seq<string>)
    ensures |r| == |recs|
  {
    seq(|recs|, i requires 0 <= i < |recs| => recs[i].0 + ": " + recs[i].1.accountName)
  }

  /** The reconciliations whose account name contains the query, ignoring case. */
  function RecordsNamed(recs: seq<(string, Reconciliation)>, query: string): seq<(string, Reconciliation)> {
    Filter(recs, (n: string, r: Reconciliation) => NameMatches(r.accountName, query))
  }

  /**
   * `handle_account_reconciliation` without the guidance text, reading the
   * comparison figure under the key `key` picks: one account by number, else
   * the accounts matching a name (one match is looked up again by number),
   * else the summary of the reconciliations of one type or of "all".
   */
  function AccountReconciliation(recs: seq<(string, Reconciliation)>, number: Value, name: Value, kind: Value,
                                 key: string -> string, show: Value -> string): Result<RecOutcome>
    decreases if Truthy(name) then 1 else 0
  {
    if Truthy(number) then
      if !Hashable(number) then Err(Unhashable(number))
      else if !number.VStr? || Get(recs, number.s).None? then
        Ok(RecNotFound("Reconciliation for account " + Str(number, show) + " not found", Keys(recs)))
      else
        var r := Get(recs, number.s).value;
        var c := Comparison(r, key);
        if c.None? then Err("KeyError: " + key(r.kind))
        else Ok(RecDetail(number.s, r, c.value, r.glBalance - c.value, ItemTotal(r.items)))
    else if Truthy(name) then
      if !name.VStr? then Err("object has no attribute 'lower'")
      else
        var matches := RecordsNamed(recs, name.s);
        if |matches| == 0 then Ok(RecNotFound("No reconciliations found matching '" + name.s + "'", RecAvailable(recs)))
        else if |matches| == 1 then AccountReconciliation(recs, VStr(matches[0].0), VNone, kind, key, show)
        else Ok(RecMatches(matches))
    else
      var selected := Selected(recs, kind);
      var rows := Rows(selected, key);
      if rows.None? then Err("KeyError")
      else Ok(RecSummary(Statistics(selected), rows.value))
  }

  /**
   * The summary fails exactly when a selected reconciliation lacks its
   * comparison figure; otherwise it counts and lists the selected ones.
   */
  lemma ReconciliationSummarySpec(recs: seq<(string, Reconciliation)>, kind: Value, key: string -> string, show: Value -> string)
    ensures var r := AccountReconciliation(recs, VNone, VNone, kind, key, show);
      var selected := Selected(recs, kind);
      && (r.Ok? <==> HasFigures(selected, key))
      && (r.Ok? ==> r.value.RecSummary? && r.value.statistics == Statistics(selected) && |r.value.rows| == |selected|)
  {
  }

  /** A known account reports its difference and the sum of its open items; an unknown one lists the known ones. */
  lemma ReconciliationByNumber(recs: seq<(string, Reconciliation)>, number: string, kind: Value, key: string -> string, show: Value -> string)
    requires number != ""
    ensures var r := AccountReconciliation(recs, VStr(number), VNone, kind, key, show);
      && (Get(recs, number).None? ==>
            r == Ok(RecNotFound("Reconciliation for account " + number + " not found", Keys(recs))))
      && (Get(recs, number).Some? ==>
            var rec := Get(recs, number).value;
            && (r.Ok? <==> Comparison(rec, key).Some?)
            && (r.Ok? ==> r.value == RecDetail(number, rec, Comparison(rec, key).value,
                                                rec.glBalance - Comparison(rec, key).value, ItemTotal(rec.items))))
  {
  }

  /** Every reconciliation of the table stores its figure under the key of its type. */
  lemma SampleHasFigures()
    ensures HasFigures(SampleReconciliations, ComparisonKey)
  {
    forall i | 0 <= i < |SampleReconciliations| ensures Comparison(SampleReconciliations[i].1, ComparisonKey).Some? {
      var r := SampleReconciliations[i].1;
      assert r.figures[0].0 == ComparisonKey(r.kind);
    }
  }

  /** The inventory record has no "physical_balance": its comparison figure cannot be read as written. */
  lemma InventoryLacksWrittenKey()
    ensures SampleReconciliations[2].0 == "1020"
    ensures Comparison(SampleReconciliations[2].1, WrittenKey).None?
    ensures Comparison(SampleReconciliations[2].1, ComparisonKey) == Some(758000)
  {
    assert "physical_balance" != "physical_count" by {
      assert "physical_balance"[9] != "physical_count"[9];
    }
  }

  /**
   * As written, the summary of all reconciliations and of the "physical"
   * ones raise a KeyError, because the inventory count is looked up under
   * "physical_balance".
   */
  lemma WrittenSummaryFails(show: Value -> string)
    ensures AccountReconciliation(SampleReconciliations, VNone, VNone, VStr("all"), WrittenKey, show).Err?
    ensures AccountReconciliation(SampleReconciliations, VNone, VNone, VStr("physical"), WrittenKey, show).Err?
  {
    InventoryLacksWrittenKey();
    var physical := Selected(SampleReconciliations, VStr("physical"));
    SelectedSpec(SampleReconciliations, VStr("physical"));
    assert SampleReconciliations[2] in physical;
  }

  /** As written, the detail of account 1020 (Inventory) raises the same KeyError. */
  lemma WrittenDetailFails(show: Value -> string)
    ensures AccountReconciliation(SampleReconciliations, VStr("1020"), VNone, VStr("bank"), WrittenKey, show).Err?
  {
    InventoryLacksWrittenKey();
    assert Get(SampleReconciliations, "1020") == Some(SampleReconciliations[2].1) by {
      assert SampleReconciliations[0].0 != "1020" && SampleReconciliations[1].0 != "1020";
      assert SampleReconciliations[1..][1..][0].0 == "1020";
    }
  }

  /** With the key of each type, the summary of the table never raises, whatever type is asked for. */
  lemma ComparisonKeySummary(kind: Value, show: Value -> string)
    ensures AccountReconciliation(SampleReconciliations, VNone, VNone, kind, ComparisonKey, show).Ok?
  {
    SampleHasFigures();
    var selected := Selected(SampleReconciliations, kind);
    SelectedSpec(SampleReconciliations, kind);
    forall i | 0 <= i < |selected| ensures Comparison(selected[i].1, ComparisonKey).Some? {
      assert selected[i] in SampleReconciliations;
    }
    ReconciliationSummarySpec(SampleReconciliations, kind, ComparisonKey, show);
  }

  /** With the key of each type, the detail of every account of the table is reported. */
  lemma ComparisonKeyDetail(number: string, kind: Value, show: Value -> string)
    requires Get(SampleReconciliations, number).Some?
    ensures AccountReconciliation(SampleReconciliations, VStr(number), VNone, kind, ComparisonKey, show).Ok?
  {
    SampleHasFigures();
    GetSome(SampleReconciliations, number);
    var r := Get(SampleReconciliations, number).value;
    assert (number, r) in SampleReconciliations;
  }

  /**
   * A non-empty list or dict as the account or entry number cannot be looked
   * up: each handler raises the TypeError of hashing it.
   */
  lemma UnhashableNumber(ledger: Ledger, entries: seq<(string, JournalEntry)>, recs: seq<(string, Reconciliation)>,
                         number: Value, range: Value, today: Date, key: string -> string, show: Value -> string)
    requires Valid(today) && Truthy(number) && !Hashable(number) && DateRange(range, today).Ok?
    ensures GeneralLedger(ledger, number, VNone, range, today, show) == Err(Unhashable(number))
    ensures Journal(ledger, entries, number, VNone, VNone, today, show) == Err(Unhashable(number))
    ensures AccountReconciliation(recs, number, VNone, VNone, key, show) == Err(Unhashable(number))
  {
  }
}
