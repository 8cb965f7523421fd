/** The monthly report of src/services/reportService.js: the progress bar, the per-category
    grouping of a month's expenses, their stable sort by amount, and the lines of the summary
    message. The queries become their results; currency and month-name formatting stay
    symbolic. */
module ReportService {
  import opened Wrappers
  import opened JsString
  import FinanceService

  /** `Math.round`: halves go up. */
  function Round(x: real): (r: int)
    ensures r as real - 0.5 <= x < r as real + 0.5
  {
    (x + 0.5).Floor
  }

  /** `Math.max(0, Math.min(percent, 100))` */
  function Clamp(percent: real): (r: real)
    ensures 0.0 <= r <= 100.0
    ensures 0.0 <= percent <= 100.0 ==> r == percent
    ensures percent < 0.0 ==> r == 0.0
    ensures percent > 100.0 ==> r == 100.0
  {
    if percent > 100.0 then 100.0 else if percent < 0.0 then 0.0 else percent
  }

  lemma ScaledBetween(a: real, size: nat)
    requires 0.0 <= a <= 1.0
    ensures 0.0 <= a * size as real <= size as real
  {
  }

  lemma ScaledMonotone(a: real, b: real, size: nat)
    requires a <= b
    ensures a * size as real <= b * size as real
  {
  }

  /** The number of filled cells: the clamped share of `size`, rounded. */
  function FilledCells(percent: real, size: nat): (n: nat)
    ensures n <= size
  {
    var share := Clamp(percent) / 100.0;
    ScaledBetween(share, size);
    RoundBetween(share * size as real, size);
    Round(share * size as real)
  }

  lemma RoundBetween(x: real, size: nat)
    requires 0.0 <= x <= size as real
    ensures 0 <= Round(x) <= size
  {
  }

  /** A full bar from 100% on, an empty one at 0% and below, and more filled cells for a larger
      share. */
  lemma FilledCellsBounds(p: real, q: real, size: nat)
    ensures p >= 100.0 ==> FilledCells(p, size) == size
    ensures p <= 0.0 ==> FilledCells(p, size) == 0
    ensures p <= q ==> FilledCells(p, size) <= FilledCells(q, size)
  {
    if p <= q {
      var a, b := Clamp(p) / 100.0, Clamp(q) / 100.0;
      assert a <= b;
      assert FilledCells(p, size) == Round(a * size as real);
      assert FilledCells(q, size) == Round(b * size as real);
      ScaledRoundMonotone(a, b, size);
    }
  }

  lemma ScaledRoundMonotone(a: real, b: real, size: nat)
    requires a <= b
    ensures Round(a * size as real) <= Round(b * size as real)
  {
    ScaledMonotone(a, b, size);
    RoundMonotone(a * size as real, b * size as real);
  }

  lemma RoundMonotone(x: real, y: real)
    requires x <= y
    ensures Round(x) <= Round(y)
  {
  }

  /** `c.repeat(n)` for a one-character `c`. */
  function Repeat(c: char, n: nat): (r: string)
    ensures |r| == n && forall i :: 0 <= i < n ==> r[i] == c
  {
    if n == 0 then [] else [c] + Repeat(c, n - 1)
  }

  const FullCell: char := '█'
  const EmptyCell: char := '░'

  /** `progressBar`: `size` cells between brackets, the filled ones first. */
  function ProgressBar(percent: real, size: nat): (r: string)
    ensures |r| == size + 2 && r[0] == '[' && r[size + 1] == ']'
    ensures forall i :: 1 <= i <= size ==> r[i] == FullCell || r[i] == EmptyCell
    ensures forall i :: 1 <= i <= size ==> (r[i] == FullCell <==> i <= FilledCells(percent, size))
  {
    var filled := FilledCells(percent, size);
    var r := "[" + Repeat(FullCell, filled) + Repeat(EmptyCell, size - filled) + "]";
    assert forall i :: 1 <= i <= filled ==> r[i] == Repeat(FullCell, filled)[i - 1];
    assert forall i :: filled < i <= size ==> r[i] == Repeat(EmptyCell, size - filled)[i - 1 - filled];
    r
  }

  /** An expense row as the month's query returns it: its amount and its category's name. */
  datatype ExpenseRow = ExpenseRow(categoryName: string, amount: real)

  /** One entry of the summary's category list. */
  datatype CategoryAmount = CategoryAmount(category: string, amount: real)

  /** The position of the first row of a category, or the number of rows when none has it. */
  function FirstIndex(rows: seq<ExpenseRow>, name: string): (r: nat)
    ensures r <= |rows|
    ensures forall i :: 0 <= i < r ==> rows[i].categoryName != name
    ensures r < |rows| ==> rows[r].categoryName == name
  {
    if rows == [] then 0
    else if rows[0].categoryName == name then 0
    else 1 + FirstIndex(rows[1..], name)
  }

  /** A row appended after the others moves no first position; it is the first of its
      category only when no earlier row has that category. */
  lemma FirstIndexAppend(rows: seq<ExpenseRow>, name: string)
    requires rows != []
    ensures var before := rows[..|rows| - 1];
      FirstIndex(rows, name) ==
        if FirstIndex(before, name) < |before| then FirstIndex(before, name)
        else if rows[|rows| - 1].categoryName == name then |before|
        else |rows|
  {
    var before := rows[..|rows| - 1];
    var a, b := FirstIndex(before, name), FirstIndex(rows, name);
    assert forall i :: 0 <= i < |before| ==> before[i] == rows[i];
    if a < |before| {
      assert rows[a].categoryName == name;
    }
  }

  /** The category names in the order they first appear: the key order of `grouped`. */
  function Names(rows: seq<ExpenseRow>): (r: seq<string>)
    ensures forall i, j :: 0 <= i < j < |r| ==> r[i] != r[j]
    ensures forall n :: n in r <==> exists i :: 0 <= i < |rows| && rows[i].categoryName == n
  {
    if rows == [] then []
    else
      var before := Names(rows[..|rows| - 1]);
      var last := rows[|rows| - 1];
      assert forall i :: 0 <= i < |rows| - 1 ==> rows[..|rows| - 1][i] == rows[i];
      if last.categoryName in before then before else before + [last.categoryName]
  }

  /** The names come in the order of their categories' first rows. */
  lemma {:induction false} NamesInFirstOrder(rows: seq<ExpenseRow>)
    ensures forall i :: 0 <= i < |Names(rows)| ==> FirstIndex(rows, Names(rows)[i]) < |rows|
    ensures forall i, j :: 0 <= i < j < |Names(rows)| ==>
      FirstIndex(rows, Names(rows)[i]) < FirstIndex(rows, Names(rows)[j])
  {
    if rows != [] {
      var prefix := rows[..|rows| - 1];
      var before := Names(prefix);
      var last := rows[|rows| - 1];
      NamesInFirstOrder(prefix);
      forall k | 0 <= k < |before|
        ensures FirstIndex(rows, before[k]) == FirstIndex(prefix, before[k])
      {
        assert FirstIndex(prefix, before[k]) < |prefix|;
        FirstIndexAppend(rows, before[k]);
      }
      if last.categoryName !in before {
        var r := before + [last.categoryName];
        assert forall i :: 0 <= i < |prefix| ==> prefix[i].categoryName != last.categoryName;
        FirstIndexAppend(rows, last.categoryName);
        assert FirstIndex(rows, last.categoryName) == |prefix|;
        assert forall i :: 0 <= i < |before| ==> r[i] == before[i];
      }
    }
  }

  /** The total of one category's rows. */
  function CategorySum(rows: seq<ExpenseRow>, name: string): real {
    if rows == [] then 0.0
    else
      var last := rows[|rows| - 1];
      CategorySum(rows[..|rows| - 1], name) + (if last.categoryName == name then last.amount else 0.0)
  }

  /** A name no row carries sums to 0. */
  lemma {:induction false} SumAbsent(rows: seq<ExpenseRow>, name: string)
    requires name !in Names(rows)
    ensures CategorySum(rows, name) == 0.0
  {
    if rows != [] {
      var before := rows[..|rows| - 1];
      assert forall k :: 0 <= k < |before| ==> before[k] == rows[k];
      SumAbsent(before, name);
    }
  }

  /** The grouped totals, in first-appearance order, before sorting. */
  function Grouped(rows: seq<ExpenseRow>): (r: seq<CategoryAmount>)
    ensures |r| == |Names(rows)|
    ensures forall i :: 0 <= i < |r| ==> r[i] == CategoryAmount(Names(rows)[i], CategorySum(rows, Names(rows)[i]))
  {
    var names := Names(rows);
    seq(|names|, i requires 0 <= i < |names| => CategoryAmount(names[i], CategorySum(rows, names[i])))
  }

  /** Non-increasing amounts: no entry is below the one after it. */
  predicate SortedDescending(s: seq<CategoryAmount>) {
    |s| < 2 || (SortedDescending(s[..|s| - 1]) && s[|s| - 2].amount >= s[|s| - 1].amount)
  }

  /** A list sorted entry by entry is sorted pair by pair. */
  lemma {:induction false} SortedOrdered(s: seq<CategoryAmount>)
    requires SortedDescending(s)
    ensures forall i, j :: 0 <= i < j < |s| ==> s[i].amount >= s[j].amount
    decreases |s|
  {
    if |s| >= 2 {
      var init := s[..|s| - 1];
      SortedOrdered(init);
      forall i, j | 0 <= i < j < |s| ensures s[i].amount >= s[j].amount {
        if j < |s| - 1 {
          assert s[i] == init[i] && s[j] == init[j];
        } else if i < j - 1 {
          assert s[i] == init[i] && s[j - 1] == init[j - 1];
        }
      }
    }
  }

  /** Appending an entry no larger than the last keeps a list sorted. */
  lemma SortedAppend(s: seq<CategoryAmount>, y: CategoryAmount)
    requires SortedDescending(s) && (s == [] || s[|s| - 1].amount >= y.amount)
    ensures SortedDescending(s + [y])
  {
    assert (s + [y])[..|s|] == s;
  }

  /** The entries whose amount is `v`, in their order. */
  function WithAmount(s: seq<CategoryAmount>, v: real): seq<CategoryAmount> {
    if s == [] then []
    else WithAmount(s[..|s| - 1], v) + (if s[|s| - 1].amount == v then [s[|s| - 1]] else [])
  }

  /** Places `x` after every entry whose amount is at least its own. */
  function Insert(x: CategoryAmount, s: seq<CategoryAmount>): (r: seq<CategoryAmount>)
    requires SortedDescending(s)
    ensures SortedDescending(r) && |r| == |s| + 1
    ensures r[|r| - 1] == x || (s != [] && r[|r| - 1] == s[|s| - 1])
  {
    if s == [] then [x]
    else
      var last := s[|s| - 1];
      if last.amount >= x.amount then
        SortedAppend(s, x);
        s + [x]
      else
        var init := s[..|s| - 1];
        var r := Insert(x, init);
        assert init != [] ==> init[|init| - 1].amount >= last.amount;
        SortedAppend(r, last);
        r + [last]
  }

  /** Inserting adds `x` and keeps every entry. */
  lemma {:induction false} InsertPermutes(x: CategoryAmount, s: seq<CategoryAmount>)
    requires SortedDescending(s)
    ensures multiset(Insert(x, s)) == multiset(s) + multiset{x}
    decreases |s|
  {
    if s != [] && s[|s| - 1].amount < x.amount {
      var init := s[..|s| - 1];
      InsertPermutes(x, init);
      assert s == init + [s[|s| - 1]];
    }
  }

  /** `.sort((a, b) => b.amount - a.amount)`: the sort is stable, so entries are inserted one
      by one, each after the equal ones already placed. */
  function SortDescending(s: seq<CategoryAmount>): (r: seq<CategoryAmount>)
    ensures SortedDescending(r)
    ensures multiset(r) == multiset(s)
  {
    if s == [] then []
    else
      assert s == s[..|s| - 1] + [s[|s| - 1]];
      InsertPermutes(s[|s| - 1], SortDescending(s[..|s| - 1]));
      Insert(s[|s| - 1], SortDescending(s[..|s| - 1]))
  }

  /** The entries of `s + [y]` with amount `v`. */
  lemma WithAmountAppend(s: seq<CategoryAmount>, y: CategoryAmount, v: real)
    ensures WithAmount(s + [y], v) == WithAmount(s, v) + (if y.amount == v then [y] else [])
  {
    assert (s + [y])[..|s|] == s;
  }

  /** Inserting `x` appends it to the entries of its own amount and leaves the others alone. */
  lemma {:induction false} InsertWithAmount(x: CategoryAmount, s: seq<CategoryAmount>, v: real)
    requires SortedDescending(s)
    ensures WithAmount(Insert(x, s), v) == WithAmount(s, v) + (if x.amount == v then [x] else [])
    decreases |s|
  {
    if s == [] {
      WithAmountAppend([], x, v);
    } else if s[|s| - 1].amount >= x.amount {
      WithAmountAppend(s, x, v);
    } else {
      InsertWithAmount(x, s[..|s| - 1], v);
      InsertBeforeLast(x, s, v);
    }
  }

  /** The step of InsertWithAmount where `x` goes before the last entry. */
  lemma InsertBeforeLast(x: CategoryAmount, s: seq<CategoryAmount>, v: real)
    requires SortedDescending(s) && s != [] && s[|s| - 1].amount < x.amount
    requires WithAmount(Insert(x, s[..|s| - 1]), v)
      == WithAmount(s[..|s| - 1], v) + (if x.amount == v then [x] else [])
    ensures WithAmount(Insert(x, s), v) == WithAmount(s, v) + (if x.amount == v then [x] else [])
  {
    var init := s[..|s| - 1];
    var last := s[|s| - 1];
    assert Insert(x, s) == Insert(x, init) + [last];
    WithAmountAppend(Insert(x, init), last, v);
    assert WithAmount(s, v) == WithAmount(init, v) + (if last.amount == v then [last] else []);
  }

  /** Stability: for every amount, the entries with that amount keep their relative order. */
  lemma {:induction false} SortStable(s: seq<CategoryAmount>, v: real)
    ensures WithAmount(SortDescending(s), v) == WithAmount(s, v)
    decreases |s|
  {
    if s != [] {
      SortStable(s[..|s| - 1], v);
      InsertWithAmount(s[|s| - 1], SortDescending(s[..|s| - 1]), v);
    }
  }

  /** `summary.income`, `.expenses`, `.balance` and `.categories` */
  datatype Summary = Summary(month: string, totals: FinanceService.Totals,
                             categories: seq<CategoryAmount>)

  /** The grouping loop of `getMonthlySummary` and the sort after it, over the month's expense
      rows. */
  method GroupAndSort(rows: seq<ExpenseRow>) returns (categories: seq<CategoryAmount>)
    ensures categories == SortDescending(Grouped(rows))
  {
    var order: seq<string> := [];
    var grouped: map<string, real> := map[];
    for i := 0 to |rows|
      invariant order == Names(rows[..i])
      invariant forall n :: n in grouped <==> n in order
      invariant forall n :: n in grouped ==> grouped[n] == CategorySum(rows[..i], n)
    {
      var row := rows[i];
      assert rows[..i + 1][..i] == rows[..i];
      assert rows[..i + 1][i] == row;
      var previous := if row.categoryName in grouped then grouped[row.categoryName] else 0.0;
      if row.categoryName !in grouped {
        SumAbsent(rows[..i], row.categoryName);
      }
      if row.categoryName !in grouped {
        order := order + [row.categoryName];
      }
      grouped := grouped[row.categoryName := previous + row.amount];
      assert forall n :: (CategorySum(rows[..i + 1], n)
        == CategorySum(rows[..i], n) + (if row.categoryName == n then row.amount else 0.0));
    }
    assert rows[..|rows|] == rows;
    var entries := seq(|order|, k requires 0 <= k < |order| => CategoryAmount(order[k], grouped[order[k]]));
    assert entries == Grouped(rows);
    categories := SortDescending(entries);
  }

  /** `getMonthlySummary` of src/services/reportService.js, given what its three queries
      return: the month's expense rows and its two sums. */
  method GetMonthlySummary(month: string, expenseRows: seq<ExpenseRow>,
                           incomeSum: Option<real>, expenseSum: Option<real>) returns (summary: Summary)
    ensures summary.month == month
    ensures summary.totals == FinanceService.BalanceOf(incomeSum, expenseSum)
    ensures summary.categories == SortDescending(Grouped(expenseRows))
  {
    var categories := GroupAndSort(expenseRows);
    summary := Summary(month, FinanceService.BalanceOf(incomeSum, expenseSum), categories);
  }

  /** Each category appears once in the summary, with the total of its rows, every category of
      the rows appears, and the list is sorted by amount with ties in first-appearance
      order. */
  lemma SummaryCategories(rows: seq<ExpenseRow>)
    ensures var c := SortDescending(Grouped(rows));
      && SortedDescending(c)
      && (forall i :: 0 <= i < |c| ==> c[i].amount == CategorySum(rows, c[i].category))
      && (forall i, j :: 0 <= i < j < |c| ==> c[i].category != c[j].category)
      && (forall i :: 0 <= i < |rows| ==> exists k :: 0 <= k < |c| && c[k].category == rows[i].categoryName)
      && (forall v :: WithAmount(c, v) == WithAmount(Grouped(rows), v))
  {
    var g := Grouped(rows);
    var c := SortDescending(g);
    forall v
      ensures WithAmount(c, v) == WithAmount(g, v)
    {
      SortStable(g, v);
    }
    forall i | 0 <= i < |c|
      ensures c[i].amount == CategorySum(rows, c[i].category)
    {
      assert c[i] in multiset(g);
    }
    forall i, j | 0 <= i < j < |c|
      ensures c[i].category != c[j].category
    {
      DistinctAfterSort(g, c, i, j);
    }
    forall i | 0 <= i < |rows|
      ensures exists k :: 0 <= k < |c| && c[k].category == rows[i].categoryName
    {
      var names := Names(rows);
      var n := rows[i].categoryName;
      assert n in names;
      var k :| 0 <= k < |names| && names[k] == n;
      assert g[k] in multiset(c);
    }
  }

  /** A permutation of a list with distinct names has distinct names. */
  lemma DistinctAfterSort(g: seq<CategoryAmount>, c: seq<CategoryAmount>, i: nat, j: nat)
    requires forall a, b :: 0 <= a < b < |g| ==> g[a].category != g[b].category
    requires multiset(c) == multiset(g)
    requires i < j < |c|
    ensures c[i].category != c[j].category
  {
    PermutationDistinct(g, c, i, j);
    assert c[i] in multiset(g) && c[j] in multiset(g);
    var a :| 0 <= a < |g| && g[a] == c[i];
    var b :| 0 <= b < |g| && g[b] == c[j];
    assert a != b;
  }

  /** Its entries are distinct too. */
  lemma PermutationDistinct(g: seq<CategoryAmount>, c: seq<CategoryAmount>, i: nat, j: nat)
    requires forall a, b :: 0 <= a < b < |g| ==> g[a].category != g[b].category
    requires multiset(c) == multiset(g)
    requires i < j < |c|
    ensures c[i] != c[j]
  {
    assert c == c[..i] + [c[i]] + c[i + 1..j] + [c[j]] + c[j + 1..];
    assert multiset(c)[c[i]] >= 1 + (if c[j] == c[i] then 1 else 0);
    assert c[i] in multiset(g);
    var a :| 0 <= a < |g| && g[a] == c[i];
    SingleInDistinct(g, a);
  }

  lemma {:induction false} SingleInDistinct(g: seq<CategoryAmount>, a: nat)
    requires forall x, y :: 0 <= x < y < |g| ==> g[x].category != g[y].category
    requires a < |g|
    ensures multiset(g)[g[a]] == 1
  {
    assert g == g[..a] + [g[a]] + g[a + 1..];
    assert g[a] !in g[..a] by {
      assert forall x :: 0 <= x < a ==> g[..a][x] == g[x];
    }
    assert g[a] !in g[a + 1..] by {
      var rest := g[a + 1..];
      assert forall x :: 0 <= x < |rest| ==> rest[x] == g[a + 1 + x];
    }
  }

  /** One budget as `getBudgets` lists it. */
  datatype Budget = Budget(category: string, amount: real)

  /** `budgetByCategory.get(key)`: the map is built in list order, so a later budget for the
      same lower-cased category replaces an earlier one. */
  function BudgetFor(budgets: seq<Budget>, key: string): (r: Option<real>)
    ensures r.None? <==> forall i :: 0 <= i < |budgets| ==> Lower(budgets[i].category) != key
    ensures r.Some? ==> exists i :: (0 <= i < |budgets| && Lower(budgets[i].category) == key
      && budgets[i].amount == r.value
      && forall j :: i < j < |budgets| ==> Lower(budgets[j].category) != key)
  {
    if budgets == [] then None
    else
      var last := budgets[|budgets| - 1];
      var before := budgets[..|budgets| - 1];
      assert forall i :: 0 <= i < |before| ==> before[i] == budgets[i];
      if Lower(last.category) == key then Some(last.amount)
      else BudgetFor(before, key)
  }

  /** The budget found is the one listed last among those whose category matches the key when
      lower-cased. */
  lemma BudgetForLast(budgets: seq<Budget>, key: string, k: nat)
    requires k < |budgets| && Lower(budgets[k].category) == key
    requires forall j :: k < j < |budgets| ==> Lower(budgets[j].category) != key
    ensures BudgetFor(budgets, key) == Some(budgets[k].amount)
  {
    var r := BudgetFor(budgets, key);
    var i :| 0 <= i < |budgets| && Lower(budgets[i].category) == key
      && budgets[i].amount == r.value
      && forall j :: i < j < |budgets| ==> Lower(budgets[j].category) != key;
    assert i == k;
  }

  /** `s.padEnd(n, " ")` */
  function PadEnd(s: string, n: nat): (r: string)
    ensures |s| >= n ==> r == s
    ensures |s| < n ==> |r| == n
    ensures |r| >= |s| && r[..|s|] == s && forall i :: |s| <= i < |r| ==> r[i] == ' '
  {
    if |s| >= n then s else s + Repeat(' ', n - |s|)
  }

  /** The lines of the summary message. Currency amounts and the month's name are kept as the
      values they render. */
  datatype SummaryLine =
    | Title(month: string)
    | Fixed(text: string)
    | MoneyLine(caption: string, amount: real)
    | PlainLine(category: string, amount: real)
    | BudgetLine(paddedCategory: string, amount: real, bar: string, roundedPercent: int,
                 budget: real, atLimit: bool)

  const NoExpensesLine: string := "No expenses recorded for this month."

  /** The seven lines every summary starts with. */
  function HeaderLines(summary: Summary): (r: seq<SummaryLine>)
    ensures |r| == 7 && r[6] == Fixed("By category:")
  {
    [Title(summary.month), Fixed("────────────────────"),
     MoneyLine("Income:    ", summary.totals.income),
     MoneyLine("Expenses:  ", summary.totals.expenses),
     MoneyLine("Balance:   ", summary.totals.balance),
     Fixed(""), Fixed("By category:")]
  }

  /** `budget > 0 ? (item.amount / budget) * 100 : 0` */
  function Percent(amount: real, budget: real): real {
    if budget > 0.0 then amount / budget * 100.0 else 0.0
  }

  /** The line of one category: plain when its budget is missing or 0, otherwise with the bar,
      the rounded percentage, the budget and the at-limit flag. */
  function CategoryLine(item: CategoryAmount, budgets: seq<Budget>): (line: SummaryLine)
    ensures line.PlainLine? <==>
      BudgetFor(budgets, Lower(item.category)) in {None, Some(0.0)}
    ensures line.PlainLine? ==> line == PlainLine(item.category, item.amount)
    ensures line.BudgetLine? ==>
      && Some(line.budget) == BudgetFor(budgets, Lower(item.category))
      && line.amount == item.amount
      && line.paddedCategory == PadEnd(item.category, 12)
      && line.bar == ProgressBar(Percent(item.amount, line.budget), 10)
      && line.roundedPercent == Round(Percent(item.amount, line.budget))
  {
    var budget := BudgetFor(budgets, Lower(item.category));
    if budget.None? || budget.value == 0.0 then PlainLine(item.category, item.amount)
    else
      var percent := Percent(item.amount, budget.value);
      BudgetLine(PadEnd(item.category, 12), item.amount, ProgressBar(percent, 10), Round(percent),
                 budget.value, percent >= 100.0)
  }

  /** The at-limit flag is set exactly when a positive budget is reached. */
  lemma AtLimitIff(item: CategoryAmount, budgets: seq<Budget>)
    requires CategoryLine(item, budgets).BudgetLine?
    ensures var line := CategoryLine(item, budgets);
      line.atLimit <==> line.budget > 0.0 && item.amount >= line.budget
  {
    var line := CategoryLine(item, budgets);
    if line.budget > 0.0 {
      assert item.amount / line.budget * 100.0 >= 100.0 <==> item.amount >= line.budget by {
        DivAtLeastOne(item.amount, line.budget);
      }
    }
  }

  lemma DivAtLeastOne(a: real, b: real)
    requires b > 0.0
    ensures a / b * 100.0 >= 100.0 <==> a >= b
  {
    assert a / b * b == a;
  }

  /** Lower-casing both sides makes the lookup ignore case. */
  lemma LookupIgnoresCase(item: CategoryAmount, other: string, budgets: seq<Budget>)
    requires Lower(other) == Lower(item.category)
    ensures CategoryLine(item, budgets).PlainLine?
        <==> CategoryLine(CategoryAmount(other, item.amount), budgets).PlainLine?
  {
  }

  /** The whole message of `buildSummaryMessage` as one value: the header, then either the
      no-expenses line or one line per category in the given order. */
  function SummaryLines(summary: Summary, budgets: seq<Budget>): seq<SummaryLine> {
    var c := summary.categories;
    HeaderLines(summary)
      + if |c| == 0 then [Fixed(NoExpensesLine)]
        else seq(|c|, i requires 0 <= i < |c| => CategoryLine(c[i], budgets))
  }

  /** `buildSummaryMessage`, before the lines are joined with newlines: the header, then either
      the no-expenses line or one line per category in the given order. */
  method BuildSummaryMessage(summary: Summary, budgets: seq<Budget>) returns (lines: seq<SummaryLine>)
    ensures lines == SummaryLines(summary, budgets)
    ensures |summary.categories| == 0 ==> lines == HeaderLines(summary) + [Fixed(NoExpensesLine)]
    ensures |summary.categories| > 0 ==>
      && |lines| == 7 + |summary.categories|
      && lines[..7] == HeaderLines(summary)
      && forall i :: 0 <= i < |summary.categories| ==>
           lines[7 + i] == CategoryLine(summary.categories[i], budgets)
  {
    lines := HeaderLines(summary);
    if |summary.categories| == 0 {
      lines := lines + [Fixed(NoExpensesLine)];
      return;
    }
    for i := 0 to |summary.categories|
      invariant |lines| == 7 + i && lines[..7] == HeaderLines(summary)
      invariant forall k :: 0 <= k < i ==> lines[7 + k] == CategoryLine(summary.categories[k], budgets)
    {
      var item := summary.categories[i];
      var budget := BudgetFor(budgets, Lower(item.category));
      if budget.None? || budget.value == 0.0 {
        lines := lines + [PlainLine(item.category, item.amount)];
        continue;
      }
      var percent := Percent(item.amount, budget.value);
      var atLimit := percent >= 100.0;
      lines := lines + [BudgetLine(PadEnd(item.category, 12), item.amount, ProgressBar(percent, 10),
                                   Round(percent), budget.value, atLimit)];
    }
    assert lines == lines[..7] + lines[7..];
  }
}
