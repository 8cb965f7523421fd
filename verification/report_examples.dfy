/** The case of test/reportService.test.js, stated on the model. */
module ReportExamples {
  import opened Wrappers
  import opened JsString
  import FinanceService
  import opened ReportService

  const Food := CategoryAmount("food", 42000.0)
  const Transport := CategoryAmount("transport", 31000.0)
  const Rent := CategoryAmount("rent", 80000.0)

  const TestSummary: Summary :=
    Summary("2026-02", FinanceService.Totals(320000.0, 184500.0, 135500.0), [Food, Transport, Rent])

  const TestBudgets: seq<Budget> :=
    [Budget("food", 50000.0), Budget("transport", 50000.0), Budget("rent", 80000.0)]

  lemma LowerFood()
    ensures Lower("food") == "food"
  {
    LowerKeeps("food");
  }

  lemma LowerTransport()
    ensures Lower("transport") == "transport"
  {
    LowerKeeps("transport");
  }

  lemma LowerRent()
    ensures Lower("rent") == "rent"
  {
    LowerKeeps("rent");
  }

  /** The line of a category with a budget other than 0 carries the flag and the rounded
      percentage of that budget. */
  lemma LineWithBudget(item: CategoryAmount, budgets: seq<Budget>, b: real)
    requires BudgetFor(budgets, Lower(item.category)) == Some(b) && b != 0.0
    ensures CategoryLine(item, budgets).BudgetLine?
    ensures CategoryLine(item, budgets).atLimit <==> Percent(item.amount, b) >= 100.0
    ensures CategoryLine(item, budgets).roundedPercent == Round(Percent(item.amount, b))
  {
  }

  /** Rent at 80000 of an 80000 budget is at the limit, with a full bar. */
  lemma RentLine()
    ensures CategoryLine(Rent, TestBudgets).BudgetLine?
    ensures CategoryLine(Rent, TestBudgets).atLimit
    ensures CategoryLine(Rent, TestBudgets).roundedPercent == 100
  {
    LowerRent();
    BudgetForLast(TestBudgets, "rent", 2);
    LineWithBudget(Rent, TestBudgets, 80000.0);
    assert Percent(80000.0, 80000.0) == 100.0;
  }

  /** Food at 42000 of 50000 is at 84%, below the limit. */
  lemma FoodLine()
    ensures CategoryLine(Food, TestBudgets).BudgetLine?
    ensures !CategoryLine(Food, TestBudgets).atLimit
    ensures CategoryLine(Food, TestBudgets).roundedPercent == 84
  {
    LowerFood();
    BudgetForLast(TestBudgets, "food", 0);
    LineWithBudget(Food, TestBudgets, 50000.0);
    EightyFour();
  }

  lemma EightyFour()
    ensures Percent(42000.0, 50000.0) == 84.0 && Round(84.0) == 84
  {
    assert 42000.0 / 50000.0 == 0.84;
  }

  /** Transport at 31000 of 50000 is at 62%, below the limit. */
  lemma TransportLine()
    ensures CategoryLine(Transport, TestBudgets).BudgetLine?
    ensures !CategoryLine(Transport, TestBudgets).atLimit
  {
    LowerTransport();
    BudgetForLast(TestBudgets, "transport", 1);
    LineWithBudget(Transport, TestBudgets, 50000.0);
    assert Percent(31000.0, 50000.0) < 100.0;
  }

  /** The message has one bar line per category, in order, and only rent is flagged. */
  method SummaryExample() returns (lines: seq<SummaryLine>)
    ensures |lines| == 10 && lines[6] == Fixed("By category:")
    ensures lines[7].BudgetLine? && !lines[7].atLimit
    ensures lines[8].BudgetLine? && !lines[8].atLimit
    ensures lines[9].BudgetLine? && lines[9].atLimit
  {
    lines := BuildSummaryMessage(TestSummary, TestBudgets);
    ThreeLines(TestSummary, TestBudgets, lines, Food, Transport, Rent);
    FoodLine();
    TransportLine();
    RentLine();
  }

  lemma ThreeLines(summary: Summary, budgets: seq<Budget>, lines: seq<SummaryLine>,
                   a: CategoryAmount, b: CategoryAmount, c: CategoryAmount)
    requires summary.categories == [a, b, c]
    requires |lines| == 7 + 3 && lines[..7] == HeaderLines(summary)
    requires forall i :: 0 <= i < 3 ==> lines[7 + i] == CategoryLine(summary.categories[i], budgets)
    ensures |lines| == 10 && lines[6] == Fixed("By category:")
    ensures lines[7] == CategoryLine(a, budgets)
    ensures lines[8] == CategoryLine(b, budgets)
    ensures lines[9] == CategoryLine(c, budgets)
  {
    assert lines[6] == lines[..7][6];
    assert lines[7 + 0] == CategoryLine(summary.categories[0], budgets);
    assert lines[7 + 1] == CategoryLine(summary.categories[1], budgets);
    assert lines[7 + 2] == CategoryLine(summary.categories[2], budgets);
  }
}
