/** The utterances of the intent parser's test suite (test/intentParser.test.js) and the
    intents they produce. */
module IntentExamples {
  import opened JsString
  import opened JsNumber
  import opened IntentParser

  /** `parseIntent("spent 4,500 on groceries")` */
  lemma ExpenseExample(input: string)
    requires input == "spent 4,500 on groceries"
    ensures ParseIntent(input) == AddExpense(4500.0, "groceries", "groceries")
  {
    var m := ExpenseMatch("spent", " ", "4,500", " ", "on", " ", "groceries");
    ExpenseExampleLayout(input, m);
    ExpenseExampleAmount();
    GroceriesTrimmed();
    ExpenseOf(input, m, 4500.0);
  }

  lemma ExpenseExampleLayout(input: string, m: ExpenseMatch)
    requires input == "spent 4,500 on groceries"
    requires m == ExpenseMatch("spent", " ", "4,500", " ", "on", " ", "groceries")
    ensures ExpenseLayout(Lower(Trim(input)), m)
  {
    ExpenseExampleSplit(input, m);
    ExpenseExamplePieces(m);
    ExampleIsLower(input);
  }

  lemma ExpenseExampleSplit(input: string, m: ExpenseMatch)
    requires input == "spent 4,500 on groceries"
    requires m == ExpenseMatch("spent", " ", "4,500", " ", "on", " ", "groceries")
    ensures input == m.spent + m.gap1 + m.amount + m.gap2 + m.on + m.gap3 + m.capture
  {
  }

  lemma ExpenseExamplePieces(m: ExpenseMatch)
    requires m == ExpenseMatch("spent", " ", "4,500", " ", "on", " ", "groceries")
    ensures Lower(m.spent) == "spent" && IsGap(m.gap1) && IsAmountText(m.amount) && IsGap(m.gap2)
    ensures Lower(m.on) == "on" && IsGap(m.gap3) && IsCapture(m.capture)
  {
  }

  lemma GroceriesTrimmed()
    ensures Trim("groceries") == "groceries"
  {
    TrimTrimmed("groceries");
  }

  /** The examples are trimmed and lower-case already. */
  lemma ExampleIsLower(input: string)
    requires IsTrimmed(input) && forall i :: 0 <= i < |input| ==> !IsUpperLetter(input[i])
    ensures Lower(Trim(input)) == input
  {
    TrimTrimmed(input);
    LowerKeeps(input);
  }

  lemma ExpenseExampleAmount()
    ensures ToAmount("4,500") == Finite(4500.0)
  {
    assert StripCommas("4,500") == "4500";
    DigitsNumber("4500");
    FourThousandFiveHundred();
  }

  lemma FourThousandFiveHundred()
    ensures DigitsValue("4500") == 4500
  {
    assert "4500"[..3] == "450";
    assert "450"[..2] == "45";
    assert "45"[..1] == "4";
    assert "4"[..0] == "";
  }

  /** `parseIntent("earned 100000 salary")` */
  lemma IncomeExample(input: string)
    requires input == "earned 100000 salary"
    ensures ParseIntent(input) == AddIncome(100000.0, "income", "salary")
  {
    var m := IncomeMatch("earned", " ", "100000", " ", "salary");
    IncomeExampleLayout(input, m);
    IncomeExampleAmount();
    SalaryTrimmed();
    IncomeOf(input, m, 100000.0);
  }

  lemma IncomeExampleLayout(input: string, m: IncomeMatch)
    requires input == "earned 100000 salary"
    requires m == IncomeMatch("earned", " ", "100000", " ", "salary")
    ensures IncomeLayout(Lower(Trim(input)), m)
  {
    IncomeExampleSplit(input, m);
    IncomeExamplePieces(m);
    ExampleIsLower(input);
  }

  lemma IncomeExampleSplit(input: string, m: IncomeMatch)
    requires input == "earned 100000 salary"
    requires m == IncomeMatch("earned", " ", "100000", " ", "salary")
    ensures input == m.earned + m.gap1 + m.amount + m.gap2 + m.capture
  {
  }

  lemma IncomeExamplePieces(m: IncomeMatch)
    requires m == IncomeMatch("earned", " ", "100000", " ", "salary")
    ensures Lower(m.earned) == "earned" && IsGap(m.gap1) && IsAmountText(m.amount)
    ensures IsGap(m.gap2) && IsCapture(m.capture)
  {
  }

  lemma SalaryTrimmed()
    ensures Trim("salary") == "salary"
  {
    TrimTrimmed("salary");
  }

  lemma IncomeExampleAmount()
    ensures ToAmount("100000") == Finite(100000.0)
  {
    StripCommasNone("100000");
    DigitsNumber("100000");
    HundredThousand();
  }

  lemma HundredThousand()
    ensures DigitsValue("100000") == 100000
  {
    assert "100000"[..5] == "10000";
    assert "10000"[..4] == "1000";
    assert "1000"[..3] == "100";
    assert "100"[..2] == "10";
    assert "10"[..1] == "1";
    assert "1"[..0] == "";
  }

  /** `parseIntent("balance")` */
  lemma BalanceExample(input: string)
    requires input == "balance"
    ensures ParseIntent(input) == GetBalance
  {
    ExampleIsLower(input);
    KeywordIntents(input);
  }

  /** `parseIntent("summary")` */
  lemma SummaryExample(input: string)
    requires input == "summary"
    ensures ParseIntent(input) == GetSummary
  {
    ExampleIsLower(input);
    KeywordIntents(input);
  }

  /** `parseIntent("/help")` */
  lemma HelpExample(input: string)
    requires input == "/help"
    ensures ParseIntent(input) == Help
  {
    ExampleIsLower(input);
    KeywordIntents(input);
  }

  /** `parseIntent("hello there")` */
  lemma UnknownExample(input: string)
    requires input == "hello there"
    ensures ParseIntent(input) == Unknown
  {
    UnknownOfLowerFirst(input);
  }

  /** A trimmed, lower-case utterance longer than any keyword that starts with neither `s`
      nor `e` is not understood. */
  lemma UnknownOfLowerFirst(input: string)
    requires IsTrimmed(input) && forall i :: 0 <= i < |input| ==> !IsUpperLetter(input[i])
    requires |input| > 7 && input[0] != 's' && input[0] != 'e'
    ensures ParseIntent(input) == Unknown
  {
    ExampleIsLower(input);
    UnknownOfFirst(input);
  }

  /** Two dots make the amount NaN, so "spent 1.2.3 on food" is not an expense. */
  lemma TwoDotsAmount()
    ensures ToAmount("1.2.3") == NaN
  {
    StripCommasNone("1.2.3");
    assert DotCount("1.2.3") == 2 by {
      assert "1.2.3"[1..] == ".2.3";
      assert ".2.3"[1..] == "2.3";
      assert "2.3"[1..] == ".3";
      assert ".3"[1..] == "3";
      assert "3"[1..] == "";
    }
    DigitsAndDots("1.2.3");
  }

  /** Commas alone make the amount 0, so "spent ,, on food" is not an expense. */
  lemma CommasOnlyAmount()
    ensures ToAmount(",,") == Finite(0.0)
  {
    assert StripCommas(",,") == "";
  }
}
