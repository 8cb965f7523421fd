/** The text command grammar (src/nlp/intentParser.js): a trimmed, lower-cased utterance is
    tried against fixed keywords, then the expense shape, then the income shape; the first
    rule that matches decides the intent. */
module IntentParser {
  import opened Wrappers
  import opened JsString
  import opened JsNumber

  datatype Intent =
    | AddExpense(amount: real, category: string, description: string)
    | AddIncome(amount: real, category: string, description: string)
    | GetBalance
    | GetSummary
    | Help
    | Unknown

  /** `toAmount`: the amount text with every comma removed, converted by `Number`. */
  function ToAmount(text: string): Number {
    ToNumber(StripCommas(text))
  }

  /** `[\d,.]` */
  predicate IsAmountChar(c: char) { IsDigit(c) || c == ',' || c == '.' }

  /** `[a-z0-9\s-]` under the `i` flag */
  predicate IsCaptureChar(c: char) { IsLetter(c) || IsDigit(c) || IsSpace(c) || c == '-' }

  predicate IsGap(w: string) { w != [] && AllSpace(w) }

  predicate IsAmountText(a: string) {
    a != [] && forall i :: 0 <= i < |a| ==> IsAmountChar(a[i])
  }

  /** `[a-z][a-z0-9\s-]{1,50}` under the `i` flag, matched to the end of the text. */
  predicate IsCapture(s: string) {
    2 <= |s| <= 51 && IsLetter(s[0]) && forall i :: 0 <= i < |s| ==> IsCaptureChar(s[i])
  }

  /** A token followed by a run of white space, and what comes after. */
  datatype Lead = Lead(token: string, gap: string, rest: string)

  /** `kw\s+` (case-insensitive) at the start of `s`; the gap runs as far as it can. */
  function KeywordGap(s: string, kw: string): (r: Option<Lead>)
    ensures r.Some? ==> s == r.value.token + r.value.gap + r.value.rest
    ensures r.Some? ==> Lower(r.value.token) == kw && IsGap(r.value.gap)
    ensures r.Some? ==> r.value.rest == [] || !IsSpace(r.value.rest[0])
  {
    if |s| < |kw| || Lower(s[..|kw|]) != kw then None
    else
      var e := |kw| + RunFrom(s, |kw|, IsSpace);
      if e == |kw| then None
      else
        SplitThree(s, |kw|, e);
        Some(Lead(s[..|kw|], s[|kw|..e], s[e..]))
  }

  /** A run of white space that starts at `i` ends exactly at `gap`'s end. */
  lemma GapRun(s: string, gap: string, rest: string, i: nat)
    requires AllSpace(gap) && (rest == [] || !IsSpace(rest[0]))
    requires i + |gap| <= |s| && s[i..] == gap + rest
    ensures RunFrom(s, i, IsSpace) == |gap|
    ensures s[i..i + |gap|] == gap && s[i + |gap|..] == rest
  {
    assert forall k :: i <= k < i + |gap| ==> s[k] == s[i..][k - i];
    if i + |gap| < |s| {
      assert s[i + |gap|] == s[i..][|gap|];
    }
    RunFromIs(s, i, IsSpace, |gap|);
    assert s[i..i + |gap|] == s[i..][..|gap|];
    assert s[i + |gap|..] == s[i..][|gap|..];
  }

  lemma KeywordGapOf(token: string, gap: string, rest: string, kw: string)
    requires Lower(token) == kw && IsGap(gap)
    requires rest == [] || !IsSpace(rest[0])
    ensures KeywordGap(token + gap + rest, kw) == Some(Lead(token, gap, rest))
  {
    var s := token + gap + rest;
    assert s[..|kw|] == token;
    assert s[|kw|..] == gap + rest;
    GapRun(s, gap, rest, |kw|);
  }

  /** `([\d,.]+)\s+` at the start of `s`; both runs go as far as they can. */
  function AmountGap(s: string): (r: Option<Lead>)
    ensures r.Some? ==> s == r.value.token + r.value.gap + r.value.rest
    ensures r.Some? ==> IsAmountText(r.value.token) && IsGap(r.value.gap)
    ensures r.Some? ==> r.value.rest == [] || !IsSpace(r.value.rest[0])
  {
    var a := CountWhile(s, IsAmountChar);
    var e := a + RunFrom(s, a, IsSpace);
    if a == 0 || e == a then None
    else
      SplitThree(s, a, e);
      Some(Lead(s[..a], s[a..e], s[e..]))
  }

  lemma AmountGapOf(amount: string, gap: string, rest: string)
    requires IsAmountText(amount) && IsGap(gap)
    requires rest == [] || !IsSpace(rest[0])
    ensures AmountGap(amount + gap + rest) == Some(Lead(amount, gap, rest))
  {
    var s := amount + gap + rest;
    assert s == amount + (gap + rest);
    CountWhileOf(amount, gap + rest, IsAmountChar);
    assert s[..|amount|] == amount;
    assert s[|amount|..] == gap + rest;
    GapRun(s, gap, rest, |amount|);
  }

  /** The pieces of a match of `^spent\s+([\d,.]+)\s+on\s+([a-z][a-z0-9\s-]{1,50})$/i`. */
  datatype ExpenseMatch = ExpenseMatch(
    spent: string, gap1: string, amount: string, gap2: string, on: string, gap3: string,
    capture: string)

  /** The expense regular expression matches `s` with exactly these pieces. */
  predicate ExpenseLayout(s: string, m: ExpenseMatch) {
    && s == m.spent + m.gap1 + m.amount + m.gap2 + m.on + m.gap3 + m.capture
    && Lower(m.spent) == "spent" && IsGap(m.gap1) && IsAmountText(m.amount) && IsGap(m.gap2)
    && Lower(m.on) == "on" && IsGap(m.gap3) && IsCapture(m.capture)
  }

  function MatchExpense(s: string): (r: Option<ExpenseMatch>)
    ensures r.Some? ==> ExpenseLayout(s, r.value)
  {
    match KeywordGap(s, "spent")
    case None => None
    case Some(a) =>
      match AmountGap(a.rest)
      case None => None
      case Some(b) =>
        match KeywordGap(b.rest, "on")
        case None => None
        case Some(c) =>
          if IsCapture(c.rest) then
            var m := ExpenseMatch(a.token, a.gap, b.token, b.gap, c.token, c.gap, c.rest);
            ConcatSeven(s, a.rest, b.rest, m);
            Some(m)
          else None
  }

  lemma ConcatSeven(s: string, t1: string, t2: string, m: ExpenseMatch)
    requires s == m.spent + m.gap1 + t1
    requires t1 == m.amount + m.gap2 + t2
    requires t2 == m.on + m.gap3 + m.capture
    ensures s == m.spent + m.gap1 + m.amount + m.gap2 + m.on + m.gap3 + m.capture
  {
  }

  /** The matcher finds every match of the expense regular expression (and, by the
      postcondition of MatchExpense, nothing else). */
  lemma MatchExpenseComplete(s: string, m: ExpenseMatch)
    requires ExpenseLayout(s, m)
    ensures MatchExpense(s) == Some(m)
  {
    SpentOfLayout(s, m);
    AmountOfLayout(m);
    OnOfLayout(m);
  }

  lemma SpentOfLayout(s: string, m: ExpenseMatch)
    requires ExpenseLayout(s, m)
    ensures KeywordGap(s, "spent")
              == Some(Lead(m.spent, m.gap1, m.amount + m.gap2 + (m.on + m.gap3 + m.capture)))
  {
    LeadingPiece(s, m.spent, m.gap1, m.amount, m.gap2, m.on + m.gap3 + m.capture);
    KeywordGapOf(m.spent, m.gap1, m.amount + m.gap2 + (m.on + m.gap3 + m.capture), "spent");
  }

  lemma AmountOfLayout(m: ExpenseMatch)
    requires Lower(m.on) == "on" && IsAmountText(m.amount) && IsGap(m.gap2)
    ensures AmountGap(m.amount + m.gap2 + (m.on + m.gap3 + m.capture))
              == Some(Lead(m.amount, m.gap2, m.on + m.gap3 + m.capture))
  {
    KeywordStartsNonSpace(m.on, "on");
    FirstOfConcat(m.on, m.gap3 + m.capture);
    AmountGapOf(m.amount, m.gap2, m.on + m.gap3 + m.capture);
  }

  lemma OnOfLayout(m: ExpenseMatch)
    requires Lower(m.on) == "on" && IsGap(m.gap3) && IsCapture(m.capture)
    ensures KeywordGap(m.on + m.gap3 + m.capture, "on") == Some(Lead(m.on, m.gap3, m.capture))
  {
    KeywordGapOf(m.on, m.gap3, m.capture, "on");
  }

  lemma LeadingPiece(s: string, t: string, g: string, x: string, y: string, z: string)
    requires s == t + g + x + y + z && x != []
    ensures s == t + g + (x + y + z) && (x + y + z)[0] == x[0]
  {
  }

  lemma FirstOfConcat(x: string, y: string)
    requires x != []
    ensures (x + y)[0] == x[0]
  {
  }

  /** A token that lower-cases to a keyword starting with a letter does not start with a space. */
  lemma KeywordStartsNonSpace(token: string, kw: string)
    requires Lower(token) == kw && kw != [] && IsLowerLetter(kw[0])
    ensures token != [] && !IsSpace(token[0])
  {
    assert LowerChar(token[0]) == kw[0];
  }

  /** The pieces of a match of `^earned\s+([\d,.]+)\s+([a-z][a-z0-9\s-]{1,50})$/i`. */
  datatype IncomeMatch = IncomeMatch(earned: string, gap1: string, amount: string, gap2: string,
                                     capture: string)

  predicate IncomeLayout(s: string, m: IncomeMatch) {
    && s == m.earned + m.gap1 + m.amount + m.gap2 + m.capture
    && Lower(m.earned) == "earned" && IsGap(m.gap1) && IsAmountText(m.amount) && IsGap(m.gap2)
    && IsCapture(m.capture)
  }

  function MatchIncome(s: string): (r: Option<IncomeMatch>)
    ensures r.Some? ==> IncomeLayout(s, r.value)
  {
    match KeywordGap(s, "earned")
    case None => None
    case Some(a) =>
      match AmountGap(a.rest)
      case None => None
      case Some(b) =>
        if IsCapture(b.rest) then
          var m := IncomeMatch(a.token, a.gap, b.token, b.gap, b.rest);
          ConcatFive(s, a.rest, m);
          Some(m)
        else None
  }

  lemma ConcatFive(s: string, t1: string, m: IncomeMatch)
    requires s == m.earned + m.gap1 + t1
    requires t1 == m.amount + m.gap2 + m.capture
    ensures s == m.earned + m.gap1 + m.amount + m.gap2 + m.capture
  {
  }

  lemma MatchIncomeComplete(s: string, m: IncomeMatch)
    requires IncomeLayout(s, m)
    ensures MatchIncome(s) == Some(m)
  {
    var tail1 := m.amount + m.gap2 + m.capture;
    assert s == m.earned + m.gap1 + tail1;
    assert tail1[0] == m.amount[0];
    KeywordGapOf(m.earned, m.gap1, tail1, "earned");
    AmountGapOf(m.amount, m.gap2, m.capture);
  }

  /** The expense rule: a match whose amount is a positive number. */
  function ExpenseRule(lower: string): Option<Intent> {
    match MatchExpense(lower)
    case None => None
    case Some(m) =>
      var category := Trim(m.capture);
      match ToAmount(m.amount)
      case Finite(v) => if v > 0.0 then Some(AddExpense(v, category, category)) else None
      case _ => None
  }

  /** The income rule: a match whose amount is a positive number. */
  function IncomeRule(lower: string): Option<Intent> {
    match MatchIncome(lower)
    case None => None
    case Some(m) =>
      match ToAmount(m.amount)
      case Finite(v) => if v > 0.0 then Some(AddIncome(v, "income", Trim(m.capture))) else None
      case _ => None
  }

  /** `parseIntent`: every input gets exactly one intent; the first rule that matches wins. */
  function ParseIntent(input: string): (r: Intent)
    ensures r.AddExpense? || r.AddIncome? ==> r.amount > 0.0
    ensures r.AddExpense? ==> r.category == r.description
    ensures r.AddIncome? ==> r.category == "income"
  {
    IntentOf(Lower(Trim(input)))
  }

  /** The intent of a trimmed, lower-cased utterance: the keywords first, then the commands. */
  function IntentOf(lower: string): Intent {
    if lower == "help" || lower == "/help" then Help
    else if lower == "balance" then GetBalance
    else if lower == "summary" || lower == "report" then GetSummary
    else CommandIntent(lower)
  }

  /** The two command shapes, expense first. */
  function CommandIntent(lower: string): Intent {
    match ExpenseRule(lower)
    case Some(i) => i
    case None =>
      match IncomeRule(lower)
      case Some(i) => i
      case None => Unknown
  }

  /** The fixed keywords are recognised exactly, whatever the case and surrounding space. */
  lemma KeywordIntents(input: string)
    ensures var lower := Lower(Trim(input));
      && (ParseIntent(input) == Help <==> lower == "help" || lower == "/help")
      && (ParseIntent(input) == GetBalance <==> lower == "balance")
      && (ParseIntent(input) == GetSummary <==> lower == "summary" || lower == "report")
  {
  }

  /** An amount text converts to NaN or to a finite number that is not negative. */
  lemma AmountTextNumber(a: string)
    requires IsAmountText(a)
    ensures ToAmount(a) == NaN || (ToAmount(a).Finite? && ToAmount(a).value >= 0.0)
  {
    StripCommasKeeps(a, IsDigitOrDot);
    DigitsAndDots(StripCommas(a));
  }

  /** The captured text ends a trimmed utterance and starts with a letter, so trimming it
      changes nothing. */
  lemma CaptureTrimmed(lower: string, prefix: string, capture: string)
    requires IsTrimmed(lower) && lower == prefix + capture && IsCapture(capture)
    ensures IsTrimmed(capture)
  {
    LetterNotSpace(capture[0]);
    SuffixTrimmed(lower, prefix, capture);
  }

  lemma LowerTrimmed(input: string)
    ensures IsTrimmed(Lower(Trim(input)))
  {
    LowerTrim(input);
  }

  lemma LetterNotSpace(c: char)
    requires IsLetter(c)
    ensures !IsSpace(c)
  {
  }

  lemma SuffixTrimmed(t: string, prefix: string, suffix: string)
    requires IsTrimmed(t) && t == prefix + suffix && suffix != [] && !IsSpace(suffix[0])
    ensures IsTrimmed(suffix)
  {
    assert t[|t| - 1] == suffix[|suffix| - 1];
  }

  /** Utterances matching a command shape are longer than any keyword. */
  lemma LayoutsAreNotKeywords(lower: string)
    requires (exists m :: ExpenseLayout(lower, m)) || (exists m :: IncomeLayout(lower, m))
    ensures |lower| > 7
  {
  }

  /** A text whose first character does not lower-case to the keyword's first letter
      does not start with that keyword. */
  lemma KeywordGapFirst(s: string, kw: string)
    requires s != [] && kw != [] && LowerChar(s[0]) != kw[0]
    ensures KeywordGap(s, kw) == None
  {
    if |s| >= |kw| {
      assert Lower(s[..|kw|])[0] == LowerChar(s[0]);
    }
  }

  /** An utterance shaped like an income command is never taken for an expense. */
  lemma IncomeIsNotExpense(lower: string, m: IncomeMatch)
    requires IncomeLayout(lower, m)
    ensures MatchExpense(lower) == None
  {
    assert LowerChar(m.earned[0]) == 'e' by {
      assert Lower(m.earned)[0] == 'e';
    }
    assert lower[0] == m.earned[0];
    KeywordGapFirst(lower, "spent");
  }

  /** An utterance shaped like the expense command is an expense exactly when its amount
      is a positive number, and then the intent carries that amount and the captured text. */
  lemma ExpenseIff(input: string, m: ExpenseMatch)
    requires ExpenseLayout(Lower(Trim(input)), m)
    ensures ParseIntent(input).AddExpense? <==> IsPositive(ToAmount(m.amount))
    ensures ParseIntent(input).AddExpense? ==>
      && Finite(ParseIntent(input).amount) == ToAmount(m.amount)
      && ParseIntent(input).category == Trim(m.capture)
    ensures IsTrimmed(m.capture)
    ensures !ParseIntent(input).AddExpense? ==> ParseIntent(input) == Unknown
  {
    var lower := Lower(Trim(input));
    LayoutsAreNotKeywords(lower);
    ParseCommand(lower);
    LowerTrimmed(input);
    ExpenseCommand(lower, m);
    CaptureTrimmed(lower, m.spent + m.gap1 + m.amount + m.gap2 + m.on + m.gap3, m.capture);
  }

  lemma ExpenseCommand(lower: string, m: ExpenseMatch)
    requires ExpenseLayout(lower, m)
    ensures CommandIntent(lower).AddExpense? <==> IsPositive(ToAmount(m.amount))
    ensures CommandIntent(lower).AddExpense? ==>
      && Finite(CommandIntent(lower).amount) == ToAmount(m.amount)
      && CommandIntent(lower).category == Trim(m.capture)
    ensures !CommandIntent(lower).AddExpense? ==> CommandIntent(lower) == Unknown
  {
    ExpenseRuleOf(lower, m);
    ExpenseIsNotIncome(lower, m);
    assert IncomeRule(lower) == None;
  }

  /** An utterance longer than every keyword is read as a command. */
  lemma ParseCommand(lower: string)
    requires |lower| > 7
    ensures IntentOf(lower) == CommandIntent(lower)
  {
    assert lower != "help" && lower != "/help" && lower != "balance";
    assert lower != "summary" && lower != "report";
  }

  lemma ExpenseRuleOf(lower: string, m: ExpenseMatch)
    requires ExpenseLayout(lower, m)
    ensures ExpenseRule(lower).Some? <==> IsPositive(ToAmount(m.amount))
    ensures ExpenseRule(lower).Some? ==>
      && ExpenseRule(lower).value.AddExpense?
      && Finite(ExpenseRule(lower).value.amount) == ToAmount(m.amount)
      && ExpenseRule(lower).value.category == Trim(m.capture)
  {
    MatchExpenseComplete(lower, m);
    AmountTextNumber(m.amount);
  }

  lemma ExpenseIsNotIncome(lower: string, m: ExpenseMatch)
    requires ExpenseLayout(lower, m)
    ensures MatchIncome(lower) == None
  {
    assert LowerChar(m.spent[0]) == 's' by {
      assert Lower(m.spent)[0] == 's';
    }
    assert lower[0] == m.spent[0];
    KeywordGapFirst(lower, "earned");
  }

  /** The same for the income command, which is tried only after the expense command. */
  lemma IncomeIff(input: string, m: IncomeMatch)
    requires IncomeLayout(Lower(Trim(input)), m)
    ensures ParseIntent(input).AddIncome? <==> IsPositive(ToAmount(m.amount))
    ensures ParseIntent(input).AddIncome? ==>
      && Finite(ParseIntent(input).amount) == ToAmount(m.amount)
      && ParseIntent(input).description == Trim(m.capture)
    ensures IsTrimmed(m.capture)
    ensures !ParseIntent(input).AddIncome? ==> ParseIntent(input) == Unknown
  {
    var lower := Lower(Trim(input));
    LayoutsAreNotKeywords(lower);
    ParseCommand(lower);
    LowerTrimmed(input);
    IncomeCommand(lower, m);
    CaptureTrimmed(lower, m.earned + m.gap1 + m.amount + m.gap2, m.capture);
  }

  lemma IncomeCommand(lower: string, m: IncomeMatch)
    requires IncomeLayout(lower, m)
    ensures CommandIntent(lower).AddIncome? <==> IsPositive(ToAmount(m.amount))
    ensures CommandIntent(lower).AddIncome? ==>
      && Finite(CommandIntent(lower).amount) == ToAmount(m.amount)
      && CommandIntent(lower).description == Trim(m.capture)
    ensures !CommandIntent(lower).AddIncome? ==> CommandIntent(lower) == Unknown
  {
    IncomeIsNotExpense(lower, m);
    assert ExpenseRule(lower) == None;
    IncomeRuleOf(lower, m);
  }

  lemma IncomeRuleOf(lower: string, m: IncomeMatch)
    requires IncomeLayout(lower, m)
    ensures IncomeRule(lower).Some? <==> IsPositive(ToAmount(m.amount))
    ensures IncomeRule(lower).Some? ==>
      && IncomeRule(lower).value.AddIncome?
      && Finite(IncomeRule(lower).value.amount) == ToAmount(m.amount)
      && IncomeRule(lower).value.description == Trim(m.capture)
  {
    MatchIncomeComplete(lower, m);
    AmountTextNumber(m.amount);
  }

  /** Every expense intent comes from a match of the expense shape. */
  lemma ExpenseSound(input: string)
    requires ParseIntent(input).AddExpense?
    ensures exists m :: ExpenseLayout(Lower(Trim(input)), m)
                          && ToAmount(m.amount) == Finite(ParseIntent(input).amount)
                          && ParseIntent(input).category == Trim(m.capture)
                          && IsTrimmed(m.capture)
  {
    var lower := Lower(Trim(input));
    var m := MatchExpense(lower).value;
    ExpenseIff(input, m);
  }

  /** Every income intent comes from a match of the income shape. */
  lemma IncomeSound(input: string)
    requires ParseIntent(input).AddIncome?
    ensures exists m :: IncomeLayout(Lower(Trim(input)), m)
                          && ToAmount(m.amount) == Finite(ParseIntent(input).amount)
                          && ParseIntent(input).description == Trim(m.capture)
                          && IsTrimmed(m.capture)
  {
    var lower := Lower(Trim(input));
    var m := MatchIncome(lower).value;
    IncomeIff(input, m);
  }

  /** An utterance is not understood exactly when it is no keyword and every reading of it
      as an expense or income command has an amount that is not a positive number. */
  lemma UnknownIff(input: string)
    ensures var lower := Lower(Trim(input));
      ParseIntent(input) == Unknown <==>
        && lower != "help" && lower != "/help" && lower != "balance"
        && lower != "summary" && lower != "report"
        && (forall m :: ExpenseLayout(lower, m) ==> !IsPositive(ToAmount(m.amount)))
        && (forall m :: IncomeLayout(lower, m) ==> !IsPositive(ToAmount(m.amount)))
  {
    var lower := Lower(Trim(input));
    var r := ParseIntent(input);
    if r == Unknown {
      forall m | ExpenseLayout(lower, m) ensures !IsPositive(ToAmount(m.amount)) {
        ExpenseIff(input, m);
      }
      forall m | IncomeLayout(lower, m) ensures !IsPositive(ToAmount(m.amount)) {
        IncomeIff(input, m);
      }
    } else if r.AddExpense? {
      ExpenseIff(input, MatchExpense(lower).value);
    } else if r.AddIncome? {
      IncomeIff(input, MatchIncome(lower).value);
    }
  }

  /** Lower-case letters, digits, white space and hyphens, 2 to 51 of them, the first a
      letter. */
  predicate IsLowerCapture(t: string) {
    IsCapture(t) && IsLowerLetter(t[0]) && forall i :: 0 <= i < |t| ==> !IsUpperLetter(t[i])
  }

  /** The category of an expense and the description of an income are always in that form:
      the utterance was lower-cased before it was matched. */
  lemma CapturedText(input: string)
    ensures ParseIntent(input).AddExpense? ==> IsLowerCapture(ParseIntent(input).category)
    ensures ParseIntent(input).AddIncome? ==> IsLowerCapture(ParseIntent(input).description)
  {
    var lower := Lower(Trim(input));
    if ParseIntent(input).AddExpense? {
      var m := MatchExpense(lower).value;
      ExpenseIff(input, m);
      LowerSuffix(Trim(input), m.spent + m.gap1 + m.amount + m.gap2 + m.on + m.gap3, m.capture);
      TrimTrimmed(m.capture);
    } else if ParseIntent(input).AddIncome? {
      var m := MatchIncome(lower).value;
      IncomeIff(input, m);
      LowerSuffix(Trim(input), m.earned + m.gap1 + m.amount + m.gap2, m.capture);
      TrimTrimmed(m.capture);
    }
  }

  lemma LowerSuffix(t: string, prefix: string, capture: string)
    requires Lower(t) == prefix + capture && IsCapture(capture)
    ensures IsLowerCapture(capture)
  {
    LowerHasNoUpper(t);
    forall i | 0 <= i < |capture| ensures !IsUpperLetter(capture[i]) {
      assert capture[i] == Lower(t)[|prefix| + i];
    }
  }

  /** The completeness half of ExpenseIff in the form callers use. */
  lemma ExpenseOf(input: string, m: ExpenseMatch, v: real)
    requires ExpenseLayout(Lower(Trim(input)), m) && ToAmount(m.amount) == Finite(v) && v > 0.0
    ensures ParseIntent(input) == AddExpense(v, Trim(m.capture), Trim(m.capture))
  {
    var lower := Lower(Trim(input));
    LayoutsAreNotKeywords(lower);
    ParseCommand(lower);
    ExpenseRuleOf(lower, m);
    assert ExpenseRule(lower).Some?;
  }

  /** The completeness half of IncomeIff in the form callers use. */
  lemma IncomeOf(input: string, m: IncomeMatch, v: real)
    requires IncomeLayout(Lower(Trim(input)), m) && ToAmount(m.amount) == Finite(v) && v > 0.0
    ensures ParseIntent(input) == AddIncome(v, "income", Trim(m.capture))
  {
    var lower := Lower(Trim(input));
    LayoutsAreNotKeywords(lower);
    ParseCommand(lower);
    IncomeIsNotExpense(lower, m);
    assert ExpenseRule(lower) == None;
    IncomeRuleOf(lower, m);
    assert IncomeRule(lower).Some?;
  }

  /** An utterance longer than any keyword whose lowered form starts with neither `s` nor
      `e` is not understood. */
  lemma UnknownOfFirst(input: string)
    requires |Lower(Trim(input))| > 7
    requires Lower(Trim(input))[0] != 's' && Lower(Trim(input))[0] != 'e'
    ensures ParseIntent(input) == Unknown
  {
    var lower := Lower(Trim(input));
    ParseCommand(lower);
    LowerHasNoUpper(Trim(input));
    assert LowerChar(lower[0]) == lower[0];
    KeywordGapFirst(lower, "spent");
    KeywordGapFirst(lower, "earned");
    assert ExpenseRule(lower) == None;
    assert IncomeRule(lower) == None;
  }
}
