/** The analytics service: revenue and expense sums over date windows, the
    monthly profit-and-loss summary, all-time return on investment and the
    monthly trend. Sums are over the in-memory tables; the clock is a
    parameter. */
module Analytics {
  import opened Common
  import opened GymStore
  import opened Calendar
  import Pagination

  // ---------------------------------------------------------------------
  // Sums over windows

  /** The payment counts as revenue of `[from, to]`. */
  predicate PaidIn(p: Payment, orgId: string, from: int, to: int) {
    p.orgId == orgId && p.status == "paid" && p.paidAt.Some? && from <= p.paidAt.value <= to
  }

  /** `getRevenue`: the amounts of the org's paid payments whose `paidAt` is in
      `[from, to]`, 0 when there are none. */
  function Revenue(payments: seq<Payment>, orgId: string, from: int, to: int): (r: int)
    ensures (forall i :: 0 <= i < |payments| ==> !PaidIn(payments[i], orgId, from, to)) ==> r == 0
  {
    if payments == [] then 0
    else
      var p := payments[|payments| - 1];
      Revenue(payments[..|payments| - 1], orgId, from, to) + (if PaidIn(p, orgId, from, to) then p.amount else 0)
  }

  /** Revenue is additive over adjacent windows. */
  lemma {:induction false} RevenueSplit(payments: seq<Payment>, orgId: string, a: int, b: int, c: int)
    requires a <= b + 1 && b <= c
    ensures Revenue(payments, orgId, a, c) == Revenue(payments, orgId, a, b) + Revenue(payments, orgId, b + 1, c)
  {
    if payments != [] {
      RevenueSplit(payments[..|payments| - 1], orgId, a, b, c);
    }
  }

  /** The expense counts in the window `[from, to]`. */
  predicate SpentIn(e: Option<Expense>, orgId: string, from: int, to: int) {
    e.Some? && e.value.orgId == orgId && from <= e.value.date <= to
  }

  /** `sumInRange`: the amounts of the org's expenses dated in `[from, to]`,
      0 when there are none. */
  function ExpenseSum(expenses: seq<Option<Expense>>, orgId: string, from: int, to: int): (r: int)
    ensures (forall i :: 0 <= i < |expenses| ==> !SpentIn(expenses[i], orgId, from, to)) ==> r == 0
  {
    if expenses == [] then 0
    else
      var e := expenses[|expenses| - 1];
      ExpenseSum(expenses[..|expenses| - 1], orgId, from, to) + (if SpentIn(e, orgId, from, to) then e.value.amount else 0)
  }

  /** Expenses are additive over adjacent windows. */
  lemma {:induction false} ExpenseSplit(expenses: seq<Option<Expense>>, orgId: string, a: int, b: int, c: int)
    requires a <= b + 1 && b <= c
    ensures ExpenseSum(expenses, orgId, a, c) == ExpenseSum(expenses, orgId, a, b) + ExpenseSum(expenses, orgId, b + 1, c)
  {
    if expenses != [] {
      ExpenseSplit(expenses[..|expenses| - 1], orgId, a, b, c);
    }
  }

  /** `totalInvested(orgId, upTo)`: the org's investments dated up to `upTo`. */
  function TotalInvested(investments: seq<Option<Investment>>, orgId: string, upTo: int): (r: int)
    ensures (forall i :: 0 <= i < |investments| ==>
               (investments[i].None? || investments[i].value.orgId != orgId || investments[i].value.date > upTo)) ==> r == 0
  {
    if investments == [] then 0
    else
      var v := investments[|investments| - 1];
      TotalInvested(investments[..|investments| - 1], orgId, upTo)
        + (if v.Some? && v.value.orgId == orgId && v.value.date <= upTo then v.value.amount else 0)
  }

  predicate HasInvestment(investments: seq<Option<Investment>>, orgId: string, i: int) {
    0 <= i < |investments| && investments[i].Some? && investments[i].value.orgId == orgId
  }

  /** `getEarliestDate`: the date of the org's earliest investment, or none. */
  function EarliestDate(investments: seq<Option<Investment>>, orgId: string): (r: Option<int>)
    ensures r.None? <==> forall i :: 0 <= i < |investments| ==> !HasInvestment(investments, orgId, i)
    ensures r.Some? ==> exists i :: HasInvestment(investments, orgId, i) && investments[i].value.date == r.value
    ensures r.Some? ==> forall i :: HasInvestment(investments, orgId, i) ==> r.value <= investments[i].value.date
  {
    if investments == [] then None
    else
      var n := |investments| - 1;
      var v := investments[n];
      var rest := EarliestDate(investments[..n], orgId);
      assert forall i :: 0 <= i < n ==> (HasInvestment(investments[..n], orgId, i) <==> HasInvestment(investments, orgId, i));
      if v.None? || v.value.orgId != orgId then rest
      else if rest.Some? && rest.value <= v.value.date then rest
      else
        assert HasInvestment(investments, orgId, n);
        Some(v.value.date)
  }

  // ---------------------------------------------------------------------
  // Monthly summary

  /** The whole of month `ym`: `new Date(y, m, 1)` to `new Date(y, m + 1, 0, 23, 59, 59, 999)`. */
  datatype Window = Window(from: int, to: int)

  function MonthWindow(ym: YearMonth): (w: Window)
    requires Valid(ym)
    ensures w.from == MonthStart(ym) && w.to + 1 == MonthStart(NextMonth(ym))
  {
    Window(MonthStart(ym), MonthEnd(ym))
  }

  /** What a `Date` built from NaN parts turns the query into. The exact
      error the query layer raises is not part of this model. */
  const InvalidDate := Err("Invalid Date")

  /** `new Date(now.getFullYear(), now.getMonth(), 1)`: the current month,
      with the constructor's reading of a year 0 to 99 as 1900 to 1999. */
  function CurrentMonth(now: YearMonth): (m: YearMonth)
    requires Valid(now)
    ensures Valid(m) && m.month0 == now.month0 && m.year == FullYear(now.year)
    ensures now.year >= 0 ==> m.year >= 100
  {
    YearMonth(FullYear(now.year), now.month0)
  }

  /** The window `getMonthlySummary` queries, as written: a "YYYY-MM" text is
      split on "-" and both parts are read with `Number`; a missing or blank
      text means the current month. */
  function SummaryWindowAsWritten(month: Option<string>, now: YearMonth): (r: Result<Window>)
    requires Valid(now)
    ensures !Present(month) ==> r == Ok(MonthWindow(CurrentMonth(now)))
    ensures Present(month) && ParseYearMonth(month.value).None? ==> r == Fail(InvalidDate)
  {
    if Present(month) then
      match ParseYearMonth(month.value)
      case None => Fail(InvalidDate)
      case Some((year, mon)) =>
        NormalizeNext(FullYear(year), mon - 1);
        Ok(MonthWindow(Normalize(FullYear(year), mon - 1)))
    else Ok(MonthWindow(CurrentMonth(now)))
  }

  /** A bare year "YYYY", which the documentation of `getMonthlySummary`
      promises as a full-year summary, has no month part; `Number(undefined)`
      is NaN and the window is an invalid date. */
  lemma FullYearRejectedAsWritten(year: nat, now: YearMonth)
    requires Valid(now)
    ensures SummaryWindowAsWritten(Some(NatToString(year)), now) == Fail(InvalidDate)
  {
    DecimalOfNat(year);
    NoSepInDigits(NatToString(year));
    SplitNoSep(NatToString(year), '-');
  }

  /** January 1 of `year` through the last millisecond of December 31. */
  function YearWindow(year: int): (w: Window)
    ensures w.from == MonthStart(YearMonth(year, 0))
    ensures w.to == MonthEnd(YearMonth(year, 11))
  {
    Window(MonthStart(YearMonth(year, 0)), MonthEnd(YearMonth(year, 11)))
  }

  /** The reading of a single "YYYY" part as a year, if it is one. */
  function BareYear(month: string): Option<int> {
    var parts := Split(month, '-');
    if |parts| == 1 then NumberOf(parts[0]) else None
  }

  /** The summary window with the documented full-year form: a text with no
      "-" that reads as a number is the whole of that year; every other input
      is read as written. */
  function SummaryWindow(month: Option<string>, now: YearMonth): (r: Result<Window>)
    requires Valid(now)
    ensures SummaryWindowAsWritten(month, now).Ok? ==> r == SummaryWindowAsWritten(month, now)
    ensures Present(month) && BareYear(month.value).Some? ==> r == Ok(YearWindow(FullYear(BareYear(month.value).value)))
  {
    if Present(month) && BareYear(month.value).Some? then Ok(YearWindow(FullYear(BareYear(month.value).value)))
    else SummaryWindowAsWritten(month, now)
  }

  /** A full year spans exactly its number of days and ends where the next
      year begins; the two-digit years name the 1900s. */
  lemma FullYearWindow(year: nat, now: YearMonth)
    requires Valid(now)
    ensures var y := FullYear(year);
            && SummaryWindow(Some(NatToString(year)), now) == Ok(YearWindow(y))
            && YearWindow(y).to + 1 == MonthStart(YearMonth(y + 1, 0))
            && YearWindow(y).to + 1 - YearWindow(y).from == YearDays(y) * DayMs
  {
    BareYearText(year);
    YearSpan(FullYear(year));
  }

  /** A year's window is its number of days long and ends where the next
      year begins. */
  lemma YearSpan(y: int)
    ensures YearWindow(y).to + 1 == MonthStart(YearMonth(y + 1, 0))
    ensures YearWindow(y).to + 1 - YearWindow(y).from == YearDays(y) * DayMs
  {
    YearLength(y);
    assert Index(YearMonth(y, 11)) + 1 == Index(YearMonth(y + 1, 0));
  }

  /** Printed digits of a year read back as that bare year. */
  lemma BareYearText(year: nat)
    ensures Present(Some(NatToString(year)))
    ensures BareYear(NatToString(year)) == Some(year)
  {
    DecimalOfNat(year);
    NoSepInDigits(NatToString(year));
    SplitNoSep(NatToString(year), '-');
    NumberOfDigits(NatToString(year));
  }

  /** A "YYYY-MM" text in the form the service prints selects exactly that
      month, for a year the Date constructor takes as itself. */
  lemma MonthTextSelectsMonth(ym: YearMonth, now: YearMonth)
    requires Valid(ym) && ym.year >= 100 && Valid(now)
    ensures SummaryWindow(Some(FormatPeriod(ym)), now) == Ok(MonthWindow(ym))
  {
    PeriodWindow(ym, now);
    NormalizeByIndex(ym.year, ym.month0, ym);
  }

  /** A printed period of a year below 100 selects the same month of the 1900s. */
  lemma TwoDigitYearText(ym: YearMonth, now: YearMonth)
    requires Valid(ym) && 0 <= ym.year <= 99 && Valid(now)
    ensures SummaryWindow(Some(FormatPeriod(ym)), now) == Ok(MonthWindow(YearMonth(1900 + ym.year, ym.month0)))
  {
    PeriodWindow(ym, now);
    NormalizeByIndex(1900 + ym.year, ym.month0, YearMonth(1900 + ym.year, ym.month0));
  }

  /** A printed period reads back as the month the Date constructor makes
      of its year and month. */
  lemma PeriodWindow(ym: YearMonth, now: YearMonth)
    requires Valid(ym) && ym.year >= 0 && Valid(now)
    ensures SummaryWindow(Some(FormatPeriod(ym)), now) == Ok(MonthWindow(Normalize(FullYear(ym.year), ym.month0)))
  {
    var t := FormatPeriod(ym);
    PeriodText(ym);
    assert SummaryWindow(Some(t), now) == SummaryWindowAsWritten(Some(t), now);
    assert ParseYearMonth(t) == Some((ym.year, ym.month0 + 1));
  }

  /** A printed period is present text, not a bare year, and reads back as its month. */
  lemma PeriodText(ym: YearMonth)
    requires Valid(ym) && ym.year >= 0
    ensures Present(Some(FormatPeriod(ym)))
    ensures BareYear(FormatPeriod(ym)).None?
    ensures ParseYearMonth(FormatPeriod(ym)) == Some((ym.year, ym.month0 + 1))
  {
    PeriodParts(ym);
    FormatParseRoundTrip(ym);
  }

  /** `{ period, from, to, revenue, expenses, netProfit }`. */
  datatype Summary = Summary(period: string, from: int, to: int, revenue: int, expenses: int, netProfit: int)

  /** `getMonthlySummary`: the window's revenue and expenses and their
      difference; the period is the text given, or the current month printed
      as "YYYY-MM". */
  function GetMonthlySummary(payments: seq<Payment>, expenses: seq<Option<Expense>>, orgId: string,
                             month: Option<string>, now: YearMonth): (r: Result<Summary>)
    requires Valid(now)
    ensures SummaryWindow(month, now).Fail? ==> r == Fail(SummaryWindow(month, now).error)
    ensures r.Ok? ==> var w := SummaryWindow(month, now).value;
                      && r.value.from == w.from && r.value.to == w.to
                      && r.value.revenue == Revenue(payments, orgId, w.from, w.to)
                      && r.value.expenses == ExpenseSum(expenses, orgId, w.from, w.to)
                      && r.value.netProfit == r.value.revenue - r.value.expenses
    ensures r.Ok? ==> r.value.period == if Present(month) then month.value else FormatPeriod(CurrentMonth(now))
  {
    var w :- SummaryWindow(month, now);
    Ok(SummaryOf(payments, expenses, orgId, if Present(month) then month.value else FormatPeriod(CurrentMonth(now)), w))
  }

  function SummaryOf(payments: seq<Payment>, expenses: seq<Option<Expense>>, orgId: string, period: string, w: Window): Summary {
    var revenue := Revenue(payments, orgId, w.from, w.to);
    var spent := ExpenseSum(expenses, orgId, w.from, w.to);
    Summary(period, w.from, w.to, revenue, spent, revenue - spent)
  }

  /** The default summary names its period so that asking for that period
      again, at any other time, gives the same summary. */
  lemma DefaultPeriodRoundTrip(payments: seq<Payment>, expenses: seq<Option<Expense>>, orgId: string,
                               now: YearMonth, later: YearMonth)
    requires Valid(now) && now.year >= 0 && Valid(later)
    ensures var r := GetMonthlySummary(payments, expenses, orgId, None, now);
            && r.Ok? && r.value.from == MonthStart(CurrentMonth(now))
            && GetMonthlySummary(payments, expenses, orgId, Some(r.value.period), later) == r
  {
    var current := CurrentMonth(now);
    var period := FormatPeriod(current);
    var summary := SummaryOf(payments, expenses, orgId, period, MonthWindow(current));
    assert GetMonthlySummary(payments, expenses, orgId, None, now) == Ok(summary);
    MonthTextSelectsMonth(current, later);
    assert |period| > 0;
    assert GetMonthlySummary(payments, expenses, orgId, Some(period), later) == Ok(summary);
  }

  // ---------------------------------------------------------------------
  // Return on investment

  /** `{ totalInvested, totalRevenue, totalExpenses, totalNetProfit, roiPercent, paybackMonths }`. */
  datatype Roi = Roi(totalInvested: int, totalRevenue: int, totalExpenses: int, totalNetProfit: int,
                     roiPercent: Option<real>, paybackMonths: Option<int>)

  /** Whole calendar months from the first investment to now, at least one. */
  function MonthsElapsed(now: YearMonth, earliest: YearMonth): (r: int)
    ensures r >= 1
    ensures r >= (now.year - earliest.year) * 12 + (now.month0 - earliest.month0)
    ensures r == 1 || r == Index(now) - Index(earliest)
  {
    var d := (now.year - earliest.year) * 12 + (now.month0 - earliest.month0);
    if d > 1 then d else 1
  }

  /** `Math.ceil(invested / (net / months))` when the average month is
      profitable: the fewest months of average profit that earn back the
      investment; none otherwise. */
  function PaybackMonths(invested: int, net: int, months: int): (r: Option<int>)
    requires months >= 1
    ensures r.Some? <==> net > 0
    ensures r.Some? ==> (r.value - 1) * net < invested * months <= r.value * net
  {
    if net > 0 then Some(Pagination.CeilDiv(invested * months, net)) else None
  }

  /** In terms of the average month: `p` months of average profit cover the
      investment and `p - 1` months do not. */
  lemma PaybackCoversInvestment(invested: int, net: int, months: int)
    requires months >= 1 && net > 0
    ensures var p := PaybackMonths(invested, net, months).value;
            var avg := net as real / months as real;
            && (p - 1) as real * avg < invested as real
            && invested as real <= p as real * avg
  {
    var p := PaybackMonths(invested, net, months).value;
    var m := months as real;
    var avg := net as real / m;
    assert avg * m == net as real;
    assert ((p - 1) * net) as real < (invested * months) as real;
    assert (invested * months) as real <= (p * net) as real;
    assert ((p - 1) as real * avg) * m == ((p - 1) * net) as real;
    assert (p as real * avg) * m == (p * net) as real;
    assert (invested as real) * m == (invested * months) as real;
  }

  /** `getRoi`: all-time sums from the epoch to `now`, the return on the
      investment in percent and the payback estimate. `calendar` is the
      `getFullYear`/`getMonth` reading of an instant: the month whose window
      holds it. */
  function GetRoi(payments: seq<Payment>, expenses: seq<Option<Expense>>, investments: seq<Option<Investment>>,
                  orgId: string, now: int, calendar: int -> YearMonth): (r: Roi)
    requires forall t :: Valid(calendar(t)) && MonthStart(calendar(t)) <= t < MonthStart(NextMonth(calendar(t)))
    ensures r.totalInvested == TotalInvested(investments, orgId, now)
    ensures r.totalRevenue == Revenue(payments, orgId, 0, now)
    ensures r.totalExpenses == ExpenseSum(expenses, orgId, 0, now)
    ensures r.totalNetProfit == r.totalRevenue - r.totalExpenses
    ensures r.roiPercent.Some? <==> r.totalInvested > 0
    ensures r.roiPercent.Some? ==> r.roiPercent.value == r.totalNetProfit as real / r.totalInvested as real * 100.0
    ensures r.paybackMonths.Some? <==> r.totalInvested > 0 && EarliestDate(investments, orgId).Some? && r.totalNetProfit > 0
    ensures r.paybackMonths.Some? ==>
              var months := MonthsElapsed(calendar(now), calendar(EarliestDate(investments, orgId).value));
              (r.paybackMonths.value - 1) * r.totalNetProfit < r.totalInvested * months <= r.paybackMonths.value * r.totalNetProfit
  {
    var invested := TotalInvested(investments, orgId, now);
    var revenue := Revenue(payments, orgId, 0, now);
    var spent := ExpenseSum(expenses, orgId, 0, now);
    var net := revenue - spent;
    var earliest := EarliestDate(investments, orgId);
    var payback := if invested > 0 && earliest.Some? then
                     PaybackMonths(invested, net, MonthsElapsed(calendar(now), calendar(earliest.value)))
                   else None;
    var roi := if invested > 0 then Some(net as real / invested as real * 100.0) else None;
    Roi(invested, revenue, spent, net, roi, payback)
  }

  // ---------------------------------------------------------------------
  // Trends

  /** `{ year, month, revenue, expenses, netProfit }` with a 1-based month. */
  datatype TrendEntry = TrendEntry(year: int, month: int, revenue: int, expenses: int, netProfit: int)

  function EntryMonth(e: TrendEntry): YearMonth {
    YearMonth(e.year, e.month - 1)
  }

  /** `new Date(now.getFullYear(), now.getMonth() - (months - 1 - i), 1)`. */
  function TrendMonth(now: YearMonth, months: int, i: int): (r: YearMonth)
    ensures Valid(r) && Index(r) == Index(now) - (months - 1 - i)
  {
    Normalize(now.year, now.month0 - (months - 1 - i))
  }

  function Entry(payments: seq<Payment>, expenses: seq<Option<Expense>>, orgId: string, ym: YearMonth): (e: TrendEntry)
    requires Valid(ym)
    ensures EntryMonth(e) == ym && 1 <= e.month <= 12
    ensures e.revenue == Revenue(payments, orgId, MonthStart(ym), MonthEnd(ym))
    ensures e.expenses == ExpenseSum(expenses, orgId, MonthStart(ym), MonthEnd(ym))
    ensures e.netProfit == e.revenue - e.expenses
  {
    var w := MonthWindow(ym);
    var revenue := Revenue(payments, orgId, w.from, w.to);
    var spent := ExpenseSum(expenses, orgId, w.from, w.to);
    TrendEntry(ym.year, ym.month0 + 1, revenue, spent, revenue - spent)
  }

  /** `Array.from({ length })`: a negative length gives no entries. */
  function TrendLength(months: Option<int>): nat {
    var n := Default(months, 12);
    if n > 0 then n else 0
  }

  /** Every entry names a calendar month 1..12. */
  predicate MonthsInRange(r: seq<TrendEntry>) {
    forall i :: 0 <= i < |r| ==> 1 <= r[i].month <= 12
  }

  /** Each entry is the month after the one before it: the `i`-th entry is
      `i` months after the first. */
  predicate Consecutive(r: seq<TrendEntry>) {
    forall i :: 0 <= i < |r| ==> Index(EntryMonth(r[i])) == Index(EntryMonth(r[0])) + i
  }

  /** Each entry carries the sums over its own month's window. */
  predicate Measured(r: seq<TrendEntry>, payments: seq<Payment>, expenses: seq<Option<Expense>>, orgId: string) {
    && RevenueMeasured(r, payments, orgId) && ExpensesMeasured(r, expenses, orgId)
    && forall i :: 0 <= i < |r| ==> r[i].netProfit == r[i].revenue - r[i].expenses
  }

  predicate RevenueMeasured(r: seq<TrendEntry>, payments: seq<Payment>, orgId: string) {
    forall i :: 0 <= i < |r| ==>
      r[i].revenue == Revenue(payments, orgId, MonthStart(EntryMonth(r[i])), MonthEnd(EntryMonth(r[i])))
  }

  predicate ExpensesMeasured(r: seq<TrendEntry>, expenses: seq<Option<Expense>>, orgId: string) {
    forall i :: 0 <= i < |r| ==>
      r[i].expenses == ExpenseSum(expenses, orgId, MonthStart(EntryMonth(r[i])), MonthEnd(EntryMonth(r[i])))
  }

  /** `getTrends`: one entry per calendar month for the last `months` months
      (12 when not given), oldest first: consecutive months ending with the
      current one, each with its own window's revenue, expenses and profit. */
  function GetTrends(payments: seq<Payment>, expenses: seq<Option<Expense>>, orgId: string,
                     now: YearMonth, months: Option<int>): (r: seq<TrendEntry>)
    requires Valid(now)
    ensures |r| == TrendLength(months)
    ensures MonthsInRange(r) && Consecutive(r) && Measured(r, payments, expenses, orgId)
    ensures |r| > 0 ==> EntryMonth(r[|r| - 1]) == now
  {
    TrendShape(payments, expenses, orgId, now, TrendLength(months));
    Trend(payments, expenses, orgId, now, TrendLength(months))
  }

  function Trend(payments: seq<Payment>, expenses: seq<Option<Expense>>, orgId: string, now: YearMonth, n: nat): seq<TrendEntry> {
    seq(n, i requires 0 <= i < n => Entry(payments, expenses, orgId, TrendMonth(now, n, i)))
  }

  lemma TrendShape(payments: seq<Payment>, expenses: seq<Option<Expense>>, orgId: string, now: YearMonth, n: nat)
    requires Valid(now)
    ensures var r := Trend(payments, expenses, orgId, now, n);
            && |r| == n && MonthsInRange(r) && Consecutive(r) && Measured(r, payments, expenses, orgId)
            && (n > 0 ==> EntryMonth(r[n - 1]) == now)
  {
    var r := Trend(payments, expenses, orgId, now, n);
    forall i | 0 <= i < n
      ensures EntryMonth(r[i]) == TrendMonth(now, n, i) && 1 <= r[i].month <= 12
      ensures Index(EntryMonth(r[i])) == Index(now) - (n - 1 - i)
    {
      assert r[i] == Entry(payments, expenses, orgId, TrendMonth(now, n, i));
    }
    assert Measured(r, payments, expenses, orgId) by {
      forall i | 0 <= i < n
        ensures r[i].revenue == Revenue(payments, orgId, MonthStart(EntryMonth(r[i])), MonthEnd(EntryMonth(r[i])))
        ensures r[i].expenses == ExpenseSum(expenses, orgId, MonthStart(EntryMonth(r[i])), MonthEnd(EntryMonth(r[i])))
        ensures r[i].netProfit == r[i].revenue - r[i].expenses
      {
        assert r[i] == Entry(payments, expenses, orgId, TrendMonth(now, n, i));
      }
    }
    if n > 0 {
      NormalizeByIndex(now.year, now.month0, now);
      assert TrendMonth(now, n, n - 1) == Normalize(now.year, now.month0);
    }
  }

  /** Entries of consecutive months abut. */
  lemma ConsecutiveEntries(r: seq<TrendEntry>, i: int)
    requires MonthsInRange(r) && Consecutive(r) && 0 <= i < |r| - 1
    ensures EntryMonth(r[i + 1]) == NextMonth(EntryMonth(r[i]))
    ensures MonthEnd(EntryMonth(r[i])) + 1 == MonthStart(EntryMonth(r[i + 1]))
  {
    NormalizeByIndex(r[i].year, r[i].month, EntryMonth(r[i + 1]));
    MonthsTile(EntryMonth(r[i]));
  }

  /** The revenue of the first `k` entries added up. */
  function TrendRevenue(r: seq<TrendEntry>, k: nat): int
    requires k <= |r|
  {
    if k == 0 then 0 else TrendRevenue(r, k - 1) + r[k - 1].revenue
  }

  /** The expenses of the first `k` entries added up. */
  function TrendExpenses(r: seq<TrendEntry>, k: nat): int
    requires k <= |r|
  {
    if k == 0 then 0 else TrendExpenses(r, k - 1) + r[k - 1].expenses
  }

  /** Each entry's window is non-empty and starts just after the one before
      it ends. */
  predicate Tiled(r: seq<TrendEntry>) {
    && (forall i :: 0 <= i < |r| ==> MonthStart(EntryMonth(r[i])) < MonthEnd(EntryMonth(r[i])))
    && (forall i :: 0 < i < |r| ==> MonthEnd(EntryMonth(r[i - 1])) + 1 == MonthStart(EntryMonth(r[i])))
  }

  lemma TrendIsTiled(r: seq<TrendEntry>)
    requires MonthsInRange(r) && Consecutive(r)
    ensures Tiled(r)
  {
    forall i | 0 <= i < |r| ensures MonthStart(EntryMonth(r[i])) < MonthEnd(EntryMonth(r[i])) {
      MonthsTile(EntryMonth(r[i]));
    }
    forall i | 0 < i < |r| ensures MonthEnd(EntryMonth(r[i - 1])) + 1 == MonthStart(EntryMonth(r[i])) {
      ConsecutiveEntries(r, i - 1);
    }
  }

  /** The months of a trend tile its whole span: the first `k` entries'
      revenues add up to the revenue over one window from the first month's
      start to the end of the `k`-th month. */
  lemma {:induction false} TrendRevenueTotal(r: seq<TrendEntry>, payments: seq<Payment>, orgId: string, k: nat)
    requires Tiled(r) && RevenueMeasured(r, payments, orgId)
    requires 1 <= k <= |r|
    ensures MonthStart(EntryMonth(r[0])) <= MonthEnd(EntryMonth(r[k - 1]))
    ensures TrendRevenue(r, k) == Revenue(payments, orgId, MonthStart(EntryMonth(r[0])), MonthEnd(EntryMonth(r[k - 1])))
  {
    if k > 1 {
      var from, mid, to := MonthStart(EntryMonth(r[0])), MonthEnd(EntryMonth(r[k - 2])), MonthEnd(EntryMonth(r[k - 1]));
      assert mid + 1 == MonthStart(EntryMonth(r[k - 1])) && mid + 1 < to;
      assert from <= mid by { TrendRevenueTotal(r, payments, orgId, k - 1); }
      RevenueSplit(payments, orgId, from, mid, to);
      TrendRevenueTotal(r, payments, orgId, k - 1);
    }
  }

  /** The same tiling for the expenses. */
  lemma {:induction false} TrendExpenseTotal(r: seq<TrendEntry>, expenses: seq<Option<Expense>>, orgId: string, k: nat)
    requires Tiled(r) && ExpensesMeasured(r, expenses, orgId)
    requires 1 <= k <= |r|
    ensures MonthStart(EntryMonth(r[0])) <= MonthEnd(EntryMonth(r[k - 1]))
    ensures TrendExpenses(r, k) == ExpenseSum(expenses, orgId, MonthStart(EntryMonth(r[0])), MonthEnd(EntryMonth(r[k - 1])))
  {
    if k > 1 {
      var from, mid, to := MonthStart(EntryMonth(r[0])), MonthEnd(EntryMonth(r[k - 2])), MonthEnd(EntryMonth(r[k - 1]));
      assert mid + 1 == MonthStart(EntryMonth(r[k - 1])) && mid + 1 < to;
      assert from <= mid by { TrendExpenseTotal(r, expenses, orgId, k - 1); }
      ExpenseSplit(expenses, orgId, from, mid, to);
      TrendExpenseTotal(r, expenses, orgId, k - 1);
    }
  }

  /** A 12-month trend taken in December is that calendar year, month by
      month: its totals are the full-year window's revenue and expenses. */
  lemma TwelveMonthTrendIsTheYear(payments: seq<Payment>, expenses: seq<Option<Expense>>, orgId: string, year: int)
    ensures var r := GetTrends(payments, expenses, orgId, YearMonth(year, 11), Some(12));
            && EntryMonth(r[0]) == YearMonth(year, 0)
            && TrendRevenue(r, |r|) == Revenue(payments, orgId, YearWindow(year).from, YearWindow(year).to)
            && TrendExpenses(r, |r|) == ExpenseSum(expenses, orgId, YearWindow(year).from, YearWindow(year).to)
  {
    var r := GetTrends(payments, expenses, orgId, YearMonth(year, 11), Some(12));
    TrendIsTiled(r);
    TrendRevenueTotal(r, payments, orgId, 12);
    TrendExpenseTotal(r, expenses, orgId, 12);
    var first, last := EntryMonth(r[0]), EntryMonth(r[11]);
    assert Index(first) == Index(YearMonth(year, 11)) - 11;
    NormalizeByIndex(year, 0, first);
    assert YearWindow(year).from == MonthStart(first) && YearWindow(year).to == MonthEnd(last);
  }
}
