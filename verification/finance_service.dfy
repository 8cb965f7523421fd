/** The ledger side of src/services/financeService.js: month keys and month ranges in UTC,
    the append of a transaction with its defaults, and the totals with their zero defaults.
    The database becomes a sequence of rows. `getMonthRange` is written out identically in
    src/services/reportService.js and is defined once here. */
module FinanceService {
  import opened Wrappers
  import opened JsString
  import opened JsNumber
  import opened JsValue

  /** A UTC calendar month; `month0` counts from 0 for January, as `getUTCMonth` does. */
  datatype UtcMonth = UtcMonth(year: int, month0: int)

  predicate ValidMonth(m: UtcMonth) { 0 <= m.month0 < 12 }

  /** The number of months since January of year 0. */
  function MonthIndex(m: UtcMonth): int { m.year * 12 + m.month0 }

  /** Two valid months with the same index are the same month. */
  lemma MonthIndexInjective(a: UtcMonth, b: UtcMonth)
    requires ValidMonth(a) && ValidMonth(b) && MonthIndex(a) == MonthIndex(b)
    ensures a == b
  {
    assert (a.year - b.year) * 12 == b.month0 - a.month0;
  }

  function NextMonth(m: UtcMonth): (r: UtcMonth)
    requires ValidMonth(m)
    ensures ValidMonth(r) && MonthIndex(r) == MonthIndex(m) + 1
    ensures m.month0 == 11 ==> r == UtcMonth(m.year + 1, 0)
  {
    if m.month0 == 11 then UtcMonth(m.year + 1, 0) else UtcMonth(m.year, m.month0 + 1)
  }

  /** ToIntegerOrInfinity on a finite number: truncation toward zero. */
  function Truncate(x: real): (r: int)
    ensures x >= 0.0 ==> r as real <= x < r as real + 1.0
    ensures x < 0.0 ==> r as real - 1.0 < x <= r as real
  {
    if x >= 0.0 then x.Floor else -((-x).Floor)
  }

  /** MakeFullYear: `Date.UTC` reads the years 0 to 99 as 1900 to 1999. */
  function FullYear(y: int): (r: int)
    ensures 0 <= y <= 99 ==> r == 1900 + y
    ensures !(0 <= y <= 99) ==> r == y
  {
    if 0 <= y <= 99 then 1900 + y else y
  }

  /** The month index `Date.UTC(year, month, 1, 0, 0, 0)` names: an out-of-range month
      carries into the year. */
  function StartIndex(year: real, month: real): int {
    FullYear(Truncate(year)) * 12 + Truncate(month)
  }

  /** TimeClip (section 21.4.1 of ECMA-262) turns a time value more than 8.64e15 ms, that is
      100000000 days, away from 1970-01-01 into NaN. */
  const TimeRangeDays: int := 100000000

  /** The days from 1970-01-01 to a day of the proleptic Gregorian calendar, `month` counting
      from 1: the era of 400 years, the year within it (counted from March), and the day
      within that year. */
  function DaysFromCivil(year: int, month: int, day: int): int
    requires 1 <= month <= 12
  {
    var y := if month <= 2 then year - 1 else year;
    var era := y / 400;
    var yoe := y - era * 400;
    var mp := if month > 2 then month - 3 else month + 9;
    var doy := (153 * mp + 2) / 5 + day - 1;
    var doe := yoe * 365 + yoe / 4 - yoe / 100 + doy;
    era * 146097 + doe - 719468
  }

  /** The day number of the first day of the month with this index. */
  function MonthDays(index: int): int {
    DaysFromCivil(index / 12, index % 12 + 1, 1)
  }

  /** The first instant of the month lies within the time range, so it is a valid date. */
  predicate Representable(index: int) {
    -TimeRangeDays <= MonthDays(index) <= TimeRangeDays
  }

  /** May of year -271821 and September of year 275760: the first and the last month that
      begin inside the time range, which runs from -271821-04-20 to 275760-09-13. */
  const FirstClippedMonth: int := -271821 * 12 + 4
  const LastClippedMonth: int := 275760 * 12 + 8

  lemma EpochDay()
    ensures DaysFromCivil(1970, 1, 1) == 0
    ensures DaysFromCivil(1970, 3, 1) == 59 && DaysFromCivil(2000, 3, 1) == 11017
  {
  }

  /** The time range begins on -271821-04-20, inside the month before the first whole one. */
  lemma ClipLow()
    ensures DaysFromCivil(-271821, 4, 20) == -TimeRangeDays
    ensures MonthDays(FirstClippedMonth - 1) < -TimeRangeDays <= MonthDays(FirstClippedMonth)
  {
  }

  /** The time range ends on 275760-09-13, inside the last month it holds the start of. */
  lemma ClipHigh()
    ensures DaysFromCivil(275760, 9, 13) == TimeRangeDays
    ensures MonthDays(LastClippedMonth) <= TimeRangeDays < MonthDays(LastClippedMonth + 1)
  {
  }

  /** Each month begins after the one before it. */
  lemma MonthDaysIncreasing(i: int)
    ensures MonthDays(i) < MonthDays(i + 1)
  {
  }

  lemma {:induction false} MonthDaysMonotone(i: int, j: int)
    requires i <= j
    ensures MonthDays(i) <= MonthDays(j)
    decreases j - i
  {
    if i < j {
      MonthDaysIncreasing(i);
      MonthDaysMonotone(i + 1, j);
    }
  }

  /** The months whose first instant is a valid date are exactly those from May -271821 to
      September 275760. */
  lemma RepresentableRange(i: int)
    ensures Representable(i) <==> FirstClippedMonth <= i <= LastClippedMonth
  {
    ClipLow();
    ClipHigh();
    if i < FirstClippedMonth {
      MonthDaysMonotone(i, FirstClippedMonth - 1);
    } else if i > LastClippedMonth {
      MonthDaysMonotone(LastClippedMonth + 1, i);
    } else {
      MonthDaysMonotone(FirstClippedMonth, i);
      MonthDaysMonotone(i, LastClippedMonth);
    }
  }

  /** `Date.UTC(year, month, 1, 0, 0, 0)`: the month whose first instant it is, or None for an
      invalid date: a non-finite argument, or a month beginning outside the time range. */
  function MonthStart(year: Number, month: Number): (r: Option<UtcMonth>)
    ensures r.Some? <==>
      year.Finite? && month.Finite? && Representable(StartIndex(year.value, month.value))
    ensures r.Some? ==> ValidMonth(r.value)
    ensures r.Some? ==> MonthIndex(r.value) == StartIndex(year.value, month.value)
  {
    if year.Finite? && month.Finite? && Representable(StartIndex(year.value, month.value)) then
      var index := StartIndex(year.value, month.value);
      Some(UtcMonth(index / 12, index % 12))
    else None
  }

  /** `n - 1` on a number. */
  function MinusOne(n: Number): Number {
    match n
    case Finite(v) => Finite(v - 1.0)
    case _ => n
  }

  /** `[year, monthNum] = month.split("-").map(Number)`: a missing second piece is `undefined`,
      which converts to NaN. */
  function KeyYear(key: string): Number { ToNumber(Split(key, '-')[0]) }

  function KeyMonth(key: string): Number {
    var parts := Split(key, '-');
    if |parts| > 1 then ToNumber(parts[1]) else NaN
  }

  /** The half-open interval `[start, end)` between the first instants of two months. */
  datatype MonthRange = MonthRange(start: UtcMonth, end: UtcMonth)

  /** `getMonthRange`: None when either date is invalid. */
  function GetMonthRange(key: string): (r: Option<MonthRange>)
    ensures r.Some? <==>
      && KeyYear(key).Finite? && KeyMonth(key).Finite?
      && Representable(StartIndex(KeyYear(key).value, KeyMonth(key).value - 1.0))
      && Representable(StartIndex(KeyYear(key).value, KeyMonth(key).value))
    ensures r.Some? ==> ValidMonth(r.value.start) && ValidMonth(r.value.end)
    ensures r.Some? ==>
      MonthIndex(r.value.start) <= MonthIndex(r.value.end) <= MonthIndex(r.value.start) + 1
  {
    var year := KeyYear(key);
    var monthNum := KeyMonth(key);
    match (MonthStart(year, MinusOne(monthNum)), MonthStart(year, monthNum))
    case (Some(s), Some(e)) => Some(MonthRange(s, e))
    case _ => None
  }

  /** The range spans exactly one month unless the month number lies strictly between 0 and 1,
      where both ends truncate to the same month and the range is empty. */
  lemma RangeSpan(key: string)
    requires GetMonthRange(key).Some?
    ensures var r := GetMonthRange(key).value; var m := KeyMonth(key).value;
      && (r.end == NextMonth(r.start) <==> !(0.0 < m < 1.0))
      && (0.0 < m < 1.0 ==> r.end == r.start)
  {
    var r := GetMonthRange(key).value;
    var m := KeyMonth(key).value;
    if 0.0 < m < 1.0 {
      assert Truncate(m - 1.0) == 0 && Truncate(m) == 0;
      MonthIndexInjective(r.start, r.end);
    } else if m >= 1.0 {
      assert Truncate(m - 1.0) == Truncate(m) - 1;
      MonthIndexInjective(NextMonth(r.start), r.end);
    } else {
      assert Truncate(m - 1.0) == Truncate(m) - 1;
      MonthIndexInjective(NextMonth(r.start), r.end);
    }
  }

  /** `String(n).padStart(2, "0")` for a month number. */
  function Pad2(n: nat): (r: string)
    requires 1 <= n <= 12
    ensures |r| == 2 && AllDigits(r) && DigitsValue(r) == n
  {
    var s := NatToString(n);
    if n < 10 then
      assert s == [DigitChar(n)];
      var r := "0" + s;
      assert r[..1] == "0";
      r
    else
      assert s == NatToString(n / 10) + [DigitChar(n % 10)];
      s
  }

  /** `getCurrentMonthKey` for the UTC year and month of the current instant. */
  function MonthKey(m: UtcMonth): (key: string)
    requires ValidMonth(m)
    ensures |key| >= 4 && key[|key| - 3] == '-'
    ensures AllDigits(key[|key| - 2..]) && DigitsValue(key[|key| - 2..]) == m.month0 + 1
    ensures 1000 <= m.year <= 9999 ==> |key| == 7 && AllDigits(key[..4])
  {
    var y := IntToString(m.year);
    var key := y + "-" + Pad2(m.month0 + 1);
    assert key[|key| - 2..] == Pad2(m.month0 + 1);
    assert 1000 <= m.year <= 9999 ==> |NatToString(m.year)| == 4 by {
      if 1000 <= m.year <= 9999 {
        FourDigits(m.year);
      }
    }
    key
  }

  lemma FourDigits(n: nat)
    requires 1000 <= n <= 9999
    ensures |NatToString(n)| == 4
  {
    assert n / 10 / 10 == n / 100;
    assert n / 100 / 10 == n / 1000;
    assert |NatToString(n / 1000)| == 1;
    assert |NatToString(n / 100)| == 2;
    assert |NatToString(n / 10)| == 3;
  }

  /** A key made for a month from year 100 on, before September 275760, reads back as that
      month's range: its start is the month itself, its end the month after, December rolling
      into January. */
  lemma MonthKeyRange(m: UtcMonth)
    requires ValidMonth(m) && m.year >= 100 && MonthIndex(m) < LastClippedMonth
    ensures GetMonthRange(MonthKey(m)) == Some(MonthRange(m, NextMonth(m)))
  {
    MonthKeyNumbers(m);
    var year := Finite(m.year as real);
    IntegerMonthStart(m.year, m.month0);
    IntegerMonthStart(m.year, m.month0 + 1);
    var s := MonthStart(year, Finite(m.month0 as real)).value;
    var e := MonthStart(year, Finite((m.month0 + 1) as real)).value;
    assert GetMonthRange(MonthKey(m)) == Some(MonthRange(s, e));
    MonthIndexInjective(s, m);
    MonthIndexInjective(e, NextMonth(m));
  }

  /** The numbers a key made from a month of a year from 0 on splits into. */
  lemma MonthKeyNumbers(m: UtcMonth)
    requires ValidMonth(m) && m.year >= 0
    ensures KeyYear(MonthKey(m)) == Finite(m.year as real)
    ensures KeyMonth(MonthKey(m)) == Finite((m.month0 + 1) as real)
  {
    var y := NatToString(m.year);
    var p := Pad2(m.month0 + 1);
    assert MonthKey(m) == y + ['-'] + p;
    assert '-' !in y && '-' !in p;
    SplitTwo(y, p, '-');
    DigitsNumber(y);
    DigitsNumber(p);
  }

  /** `Date.UTC` on whole numbers from year 100 on, for a month that begins inside the time
      range. */
  lemma IntegerMonthStart(year: int, month: int)
    requires year >= 100 && FirstClippedMonth <= year * 12 + month <= LastClippedMonth
    ensures MonthStart(Finite(year as real), Finite(month as real)).Some?
    ensures MonthIndex(MonthStart(Finite(year as real), Finite(month as real)).value)
         == year * 12 + month
    ensures MonthStart(Finite(year as real), MinusOne(Finite(month as real)))
         == MonthStart(Finite(year as real), Finite((month - 1) as real))
  {
    assert Truncate(year as real) == year;
    assert Truncate(month as real) == month;
    RepresentableRange(year * 12 + month);
  }

  /** A point in time: the month it falls in and how far into that month it lies. */
  datatype Instant = Instant(month: UtcMonth, offset: nat)

  /** `start <= t < end`, as the `createdAt` filter compares. */
  predicate InRange(t: Instant, r: MonthRange) {
    MonthIndex(r.start) <= MonthIndex(t.month) < MonthIndex(r.end)
  }

  /** Over a one-month range the filter keeps exactly the instants of that month. */
  lemma InMonthRange(t: Instant, m: UtcMonth)
    requires ValidMonth(t.month) && ValidMonth(m)
    ensures InRange(t, MonthRange(m, NextMonth(m))) <==> t.month == m
  {
    if InRange(t, MonthRange(m, NextMonth(m))) {
      MonthIndexInjective(t.month, m);
    }
  }

  /** One stored transaction: the values passed to `addTransaction`, after its defaults, and
      the instant the database stamps it with. */
  datatype Row = Row(kind: Value, amount: Value, currency: Value, category: Value,
                     description: Value, source: Value, rawImageUrl: Value, createdAt: Instant)

  /** The argument of `addTransaction`; a property that is not passed is `Undefined`. */
  datatype TxRequest = TxRequest(kind: Value, amount: Value, category: Value, description: Value,
                                 currency: Value, source: Value, rawImageUrl: Value)

  /** `process.env.CURRENCY || "NGN"` */
  function DefaultCurrency(env: Option<string>): (r: Value)
    ensures env.Some? && env.value != "" ==> r == Str(env.value)
    ensures env.None? || env == Some("") ==> r == Str("NGN")
  {
    if env.Some? && env.value != "" then Str(env.value) else Str("NGN")
  }

  /** A destructuring default applies when the property is `undefined`. */
  function Default(v: Value, fallback: Value): (r: Value)
    ensures v != Undefined ==> r == v
    ensures v == Undefined ==> r == fallback
  {
    if v == Undefined then fallback else v
  }

  /** The row `addTransaction` creates. */
  function RowOf(req: TxRequest, env: Option<string>, now: Instant): (row: Row)
    ensures row.kind == req.kind && row.amount == req.amount && row.category == req.category
    ensures row.description == req.description && row.createdAt == now
    ensures row.currency == Default(req.currency, DefaultCurrency(env))
    ensures row.source == Default(req.source, Str("text"))
    ensures row.rawImageUrl == Default(req.rawImageUrl, Null)
  {
    Row(req.kind, req.amount, Default(req.currency, DefaultCurrency(env)), req.category,
        req.description, Default(req.source, Str("text")), Default(req.rawImageUrl, Null), now)
  }

  /** What the caller of `addTransaction` receives: the stored row and the budget alert the
      store reports with it (computed outside this model). */
  datatype StoreOutcome = StoreOutcome(transaction: Row, budgetAlert: Option<string>)

  /** The numeric amount a row adds to a sum. */
  function AmountOf(row: Row): Option<real> {
    if row.amount.Num? && row.amount.n.Finite? then Some(row.amount.n.value) else None
  }

  predicate Counts(row: Row, kind: string) {
    row.kind == Str(kind) && AmountOf(row).Some?
  }

  /** `aggregate({ where: { type: kind }, _sum: { amount: true } })`: the sum over the rows of
      that type, or `null` when there is none. */
  function AggregateSum(rows: seq<Row>, kind: string): (r: Option<real>)
    ensures r.None? <==> forall i :: 0 <= i < |rows| ==> !Counts(rows[i], kind)
  {
    if rows == [] then None
    else
      var last := rows[|rows| - 1];
      var before := AggregateSum(rows[..|rows| - 1], kind);
      if !Counts(last, kind) then before
      else Some(ZeroDefault(before) + AmountOf(last).value)
  }

  /** `sum || 0` */
  function ZeroDefault(sum: Option<real>): (r: real)
    ensures sum.None? ==> r == 0.0
    ensures sum.Some? ==> r == sum.value
  {
    match sum
    case None => 0.0
    case Some(v) => v
  }

  datatype Totals = Totals(income: real, expenses: real, balance: real)

  /** The result of `getBalance` from the two sums. */
  function BalanceOf(incomeSum: Option<real>, expenseSum: Option<real>): (t: Totals)
    ensures t.income == ZeroDefault(incomeSum) && t.expenses == ZeroDefault(expenseSum)
    ensures t.balance == t.income - t.expenses
  {
    var income := ZeroDefault(incomeSum);
    var expenses := ZeroDefault(expenseSum);
    Totals(income, expenses, income - expenses)
  }

  /** `getBalance` over the whole ledger. */
  function GetBalance(rows: seq<Row>): (t: Totals)
    ensures t.income == ZeroDefault(AggregateSum(rows, "income"))
    ensures t.expenses == ZeroDefault(AggregateSum(rows, "expense"))
    ensures t.balance == t.income - t.expenses
  {
    BalanceOf(AggregateSum(rows, "income"), AggregateSum(rows, "expense"))
  }

  /** What one row adds to the balance: its amount for income, minus it for an expense. */
  function Signed(row: Row): real {
    if Counts(row, "income") then AmountOf(row).value
    else if Counts(row, "expense") then -AmountOf(row).value
    else 0.0
  }

  /** The reference balance: the signed amounts of the rows added up one by one. */
  function Net(rows: seq<Row>): real {
    if rows == [] then 0.0 else Net(rows[..|rows| - 1]) + Signed(rows[|rows| - 1])
  }

  /** The sum of a type, zero-defaulted, grows by each counted row's amount. */
  lemma {:induction false} SumAppend(rows: seq<Row>, row: Row, kind: string)
    ensures ZeroDefault(AggregateSum(rows + [row], kind))
         == ZeroDefault(AggregateSum(rows, kind)) + (if Counts(row, kind) then AmountOf(row).value else 0.0)
  {
    assert (rows + [row])[..|rows|] == rows;
  }

  /** The balance `getBalance` reports is the net of the signed amounts. */
  lemma {:induction false} BalanceIsNet(rows: seq<Row>)
    ensures GetBalance(rows).balance == Net(rows)
  {
    if rows != [] {
      var before := rows[..|rows| - 1];
      var last := rows[|rows| - 1];
      assert rows == before + [last];
      BalanceIsNet(before);
      SumAppend(before, last, "income");
      SumAppend(before, last, "expense");
    }
  }

  /** The rows of the ledger that the `createdAt` filter keeps. */
  function RowsIn(rows: seq<Row>, range: MonthRange): (r: seq<Row>)
    ensures |r| <= |rows|
    ensures forall i :: 0 <= i < |r| ==> InRange(r[i].createdAt, range)
    ensures forall i :: 0 <= i < |rows| && InRange(rows[i].createdAt, range) ==> rows[i] in r
    ensures forall x :: multiset(r)[x] == if InRange(x.createdAt, range) then multiset(rows)[x] else 0
  {
    if rows == [] then []
    else
      var before := RowsIn(rows[..|rows| - 1], range);
      var last := rows[|rows| - 1];
      assert rows == rows[..|rows| - 1] + [last];
      assert forall i :: 0 <= i < |rows| - 1 ==> rows[i] == rows[..|rows| - 1][i];
      if InRange(last.createdAt, range) then before + [last] else before
  }

  datatype MonthlyTotals = MonthlyTotals(month: string, totals: Totals)

  /** `getMonthlySummary` of src/services/financeService.js: the totals over the rows of the
      month, or None when the key gives an invalid date. */
  function GetMonthlySummary(rows: seq<Row>, key: string): (r: Option<MonthlyTotals>)
    ensures r.Some? <==> GetMonthRange(key).Some?
    ensures r.Some? ==> r.value.month == key
    ensures r.Some? ==> var inMonth := RowsIn(rows, GetMonthRange(key).value);
      && r.value.totals.income == ZeroDefault(AggregateSum(inMonth, "income"))
      && r.value.totals.expenses == ZeroDefault(AggregateSum(inMonth, "expense"))
    ensures r.Some? ==> r.value.totals.balance == r.value.totals.income - r.value.totals.expenses
    ensures r.Some? ==> r.value.totals.balance == Net(RowsIn(rows, GetMonthRange(key).value))
  {
    match GetMonthRange(key)
    case None => None
    case Some(range) =>
      var inMonth := RowsIn(rows, range);
      BalanceIsNet(inMonth);
      Some(MonthlyTotals(key, GetBalance(inMonth)))
  }

  /** The ledger the transactions are appended to. */
  class Ledger {
    var rows: seq<Row>

    constructor ()
      ensures rows == []
    {
      rows := [];
    }

    /** `addTransaction`: appends exactly one row, with the defaults filled in, and returns it
        with the store's budget alert. */
    method AddTransaction(req: TxRequest, env: Option<string>, now: Instant,
                          alert: Option<string>) returns (out: StoreOutcome)
      modifies this
      ensures out.transaction == RowOf(req, env, now) && out.budgetAlert == alert
      ensures rows == old(rows) + [out.transaction]
      ensures GetBalance(rows).balance == GetBalance(old(rows)).balance + Signed(out.transaction)
    {
      var row := RowOf(req, env, now);
      BalanceIsNet(rows);
      BalanceIsNet(rows + [row]);
      assert (rows + [row])[..|rows|] == rows;
      rows := rows + [row];
      out := StoreOutcome(row, alert);
    }
  }
}
