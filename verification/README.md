# fin-bot in Dafny

fin-bot is a WhatsApp bot for personal finance. The user types commands such as
`spent 4,500 on groceries`, `earned 100000 salary`, `balance`, `summary` or `help`, or sends a
photo of a receipt. A vision model extracts a transaction from the photo, and the bot keeps it as a
*pending* transaction for that phone number until the user answers `yes`, `no` or
`edit <field> <value>`. Transactions go to a ledger. The monthly summary groups the month's expenses
by category, sorts them by amount and draws a progress bar against each category's budget. A
maintenance script backfills a `Category` table from the category names already in use.

This project models the parts of the bot that do not depend on the network or the database, and
proves what they promise. There is one Dafny module per source file, plus shared modules for the
JavaScript built-ins the code leans on:

- `Wrappers`: `Option` and `Result`.
- `JsString`: `\s` and `trim`, ASCII `toLowerCase`, `replace(/,/g, "")`, `split` and `join`.
- `JsNumber`: `Number(string)` as exact decimal reading into reals, with `NaN` and `Infinity` kept
  as values.
- `JsValue`: the values stored in a payload object, falsiness, `obj[key]` and `||`.
- `IntentParser` (`src/nlp/intentParser.js`): `parseIntent` as a total function. Each of its two
  regular expressions is a greedy matcher, proved to find exactly the matches that have the
  pattern's layout.
- `VisionService` (`src/services/visionService.js`): brace slicing, payload validation, and
  `extractFromImage` around an abstract reply.
- `MediaHandler` (`src/bot/mediaHandler.js`): the `PendingStore` class. Its two maps are
  `pendingMap` and `pendingTimers`. Each timer is an id from a counter, and expiry is an explicit
  `Expire` event that needs the id that is still armed.
- `FinanceService` (`src/services/financeService.js`):
  - UTC month arithmetic (`Date.UTC`), `getMonthRange` and `getCurrentMonthKey`;
  - the zero-defaulted sums;
  - the `Ledger` class, whose `AddTransaction` appends one row.
- `CategoryService` (`src/services/categoryService.js`): `slugify`, and the `CategoryStore` class,
  a slug-keyed map standing in for the `Category` table.
- `ReportService` (`src/services/reportService.js`):
  - the progress bar;
  - grouping and stable descending sort;
  - budget lookup;
  - the lines of the summary message.
- `BackfillCategories` (`scripts/backfillCategories.js`):
  - `normalize` and `quote`;
  - `uniqueSlug`;
  - `loadExistingCategoryMap`, `collectLegacyCategoryNames` and `upsertCategories` over given
    query results.
- `MessageHandler` (`src/bot/messageHandler.js`): `handleMessage` as a method over a
  `PendingStore` and a `Ledger`. The database and the vision call are given as parameters.
- `IntentExamples`, `MediaExamples` and `ReportExamples`: the cases of `test/intentParser.test.js`,
  `test/mediaHandler.test.js` and `test/reportService.test.js`, stated as lemmas and methods.

Rendering that depends on the ICU locale data stays symbolic. This covers `formatCurrency` and the
month name. A confirmation card, a summary line or a reply is therefore a datatype value that holds
the numbers and texts the source interpolates, not the final string.

Where the source's modules disagree with each other, the model follows the caller:

- `src/bot/messageHandler.js:54` destructures `{ transaction, budgetAlert }` from `addTransaction`,
  but `src/services/financeService.js:26` returns the bare row. `Ledger.AddTransaction` returns the
  row together with an optional alert, and the alert comes in as a parameter.
- `getCurrentMonthKey`, `getBudgets` and `setBudget` are imported from
  `src/services/financeService.js` by `src/bot/messageHandler.js` and
  `src/services/reportService.js:3`, but that file does not export them. The key is
  `FinanceService.MonthKey` of the current UTC month. The budgets are a parameter.

## Model

| member | source | states |
|---|---|---|
| JsString.Trim | src/nlp/intentParser.js:15 | `trim` yields a text with no white space at either end, no longer than the input |
| JsString.TrimOf | src/nlp/intentParser.js:15 | trimming a trimmed text padded with white space gives that text back |
| JsString.TrimIdempotent | src/nlp/intentParser.js:15 | trimming twice is trimming once |
| JsString.TrimSplit | src/nlp/intentParser.js:15 | every text is its trimmed form with only white space before and after it |
| JsString.Lower | src/nlp/intentParser.js:16 | `toLowerCase` maps each character on its own and keeps the length |
| JsString.LowerIdempotent | src/nlp/intentParser.js:16 | lowering twice is lowering once |
| JsString.LowerTrim | src/services/categoryService.js:16-17 | lowering commutes with trimming, so `trim().toLowerCase()` and `toLowerCase().trim()` agree |
| JsString.StripCommas | src/nlp/intentParser.js:11 | `replace(/,/g, "")` leaves no comma |
| JsString.StripCommasNone | src/nlp/intentParser.js:11 | a text without commas is unchanged |
| JsString.StripCommasAppend | src/nlp/intentParser.js:11 | removing commas from a joined text joins the two results, so the other characters survive in order |
| JsString.StripCommasChar | src/nlp/intentParser.js:11 | a single character is dropped exactly when it is a comma |
| JsString.NatToString | src/services/financeService.js:13 | `String(n)` is a non-empty run of digits whose decimal value is `n` |
| JsString.NatToStringInjective | src/services/financeService.js:14 | different years render differently |
| JsString.Split | src/services/financeService.js:4 | `split` gives at least one separator-free piece, and joining the pieces gives the text back |
| JsString.SplitJoin | src/bot/messageHandler.js:24-35 | splitting joined separator-free pieces gives the pieces back |
| JsNumber.UnsignedDecimal | src/nlp/intentParser.js:11 | a decimal literal without sign reads as a non-negative real |
| JsNumber.DigitsAndDots | src/nlp/intentParser.js:10-12 | `Number` of digits and dots is NaN exactly for two or more dots or a lone dot; otherwise it is a finite non-negative number |
| JsNumber.DigitsNumber | src/nlp/intentParser.js:11 | `Number` of decimal digits is their decimal value |
| JsNumber.LetterIsNaN | src/bot/mediaHandler.js:75 | a non-empty trimmed text starting with a lower-case letter is NaN, so "abc" is rejected as an amount |
| IntentParser.KeywordGap | src/nlp/intentParser.js:31 | `spent\s+` (any case) at the start: the text is the keyword, a maximal white-space gap and the rest |
| IntentParser.AmountGap | src/nlp/intentParser.js:31 | `([\d,.]+)\s+` at the start: a maximal amount run, then a maximal gap |
| IntentParser.MatchExpense | src/nlp/intentParser.js:30-32 | every match found has the full layout of the expense pattern |
| IntentParser.MatchExpenseComplete | src/nlp/intentParser.js:30-32 | every text with that layout is matched, with exactly those pieces |
| IntentParser.MatchIncome | src/nlp/intentParser.js:46-48 | every match found has the layout of the income pattern |
| IntentParser.MatchIncomeComplete | src/nlp/intentParser.js:46-48 | every text with that layout is matched, with exactly those pieces |
| IntentParser.ParseIntent | src/nlp/intentParser.js:14-63 | every intent carrying an amount has a positive amount; an expense's description is its category; an income's category is "income" |
| IntentParser.KeywordIntents | src/nlp/intentParser.js:15-28 | after trim and lower-casing, "help" or "/help" is HELP, "balance" GET_BALANCE, "summary" or "report" GET_SUMMARY, in both directions |
| IntentParser.AmountTextNumber | src/nlp/intentParser.js:10-12 | an amount text of digits, commas and dots converts to NaN or to a finite non-negative number |
| IntentParser.ParseCommand | src/nlp/intentParser.js:18-30 | a text longer than every keyword goes straight to the command rules |
| IntentParser.IncomeIsNotExpense | src/nlp/intentParser.js:30-33 | a text shaped like the income command never matches the expense pattern |
| IntentParser.ExpenseIff | src/nlp/intentParser.js:30-44 | for a text shaped like the expense command, ADD_EXPENSE holds exactly when the comma-stripped amount is a positive number; it then carries that amount and the trimmed capture; otherwise the result is UNKNOWN |
| IntentParser.IncomeIff | src/nlp/intentParser.js:46-62 | the same for the income command, which is tried only after the expense rule |
| IntentParser.ExpenseSound | src/nlp/intentParser.js:30-43 | every ADD_EXPENSE comes from an expense-pattern match with that amount and that trimmed capture |
| IntentParser.IncomeSound | src/nlp/intentParser.js:46-59 | every ADD_INCOME comes from an income-pattern match with that amount and that trimmed capture |
| IntentParser.UnknownIff | src/nlp/intentParser.js:62 | UNKNOWN exactly when the text is no keyword and every expense or income reading has an amount that is not a positive number |
| IntentParser.CapturedText | src/nlp/intentParser.js:31 | a returned category or description starts with a letter, holds only lower-case letters, digits, white space and `-`, and is 2 to 51 characters long |
| IntentParser.UnknownOfFirst | src/nlp/intentParser.js:62 | a text longer than any keyword that starts with neither `s` nor `e` is not understood |
| IntentExamples.ExpenseExample | test/intentParser.test.js:5-10 | "spent 4,500 on groceries" is ADD_EXPENSE of 4500 with category and description "groceries" |
| IntentExamples.ExpenseExampleAmount | test/intentParser.test.js:8 | "4,500" converts to 4500 |
| IntentExamples.IncomeExample | test/intentParser.test.js:12-17 | "earned 100000 salary" is ADD_INCOME of 100000, category "income", description "salary" |
| IntentExamples.BalanceExample | test/intentParser.test.js:20 | "balance" is GET_BALANCE |
| IntentExamples.SummaryExample | test/intentParser.test.js:21 | "summary" is GET_SUMMARY |
| IntentExamples.HelpExample | test/intentParser.test.js:22 | "/help" is HELP |
| IntentExamples.UnknownExample | test/intentParser.test.js:25-27 | "hello there" is UNKNOWN |
| IntentExamples.UnknownOfLowerFirst | src/nlp/intentParser.js:62 | a trimmed lower-case text longer than any keyword starting with neither `s` nor `e` is UNKNOWN |
| IntentExamples.TwoDotsAmount | src/nlp/intentParser.js:36 | "1.2.3" converts to NaN, so it never makes an expense |
| IntentExamples.CommasOnlyAmount | src/nlp/intentParser.js:36 | ",," converts to 0, which is not positive |
| VisionService.IndexOf | src/services/visionService.js:22 | `indexOf` is -1 exactly when the character is absent, else its first position |
| VisionService.LastIndexOf | src/services/visionService.js:23 | `lastIndexOf` is -1 exactly when the character is absent, else its last position |
| VisionService.Slice | src/services/visionService.js:28 | `slice` is empty when the end is not after the start, else the text between them |
| VisionService.ParseJsonResponse | src/services/visionService.js:20-28 | the error "Vision response did not contain JSON." exactly when the trimmed reply lacks `{` or `}`; a non-empty result starts with `{` and ends with `}` |
| VisionService.ParseJsonOf | src/services/visionService.js:21-28 | chatter without `{` before the object and without `}` after it is cut away, leaving exactly the object |
| VisionService.ParseJsonBackwards | src/services/visionService.js:28 | a reply whose last `}` precedes its first `{` yields the empty text |
| VisionService.MissingFields | src/services/visionService.js:34 | the missing keys are exactly the required keys absent from the payload |
| VisionService.MissingFieldsConcat | src/services/visionService.js:34 | the filter keeps the order of the required keys |
| VisionService.ValidateExtractedPayload | src/services/visionService.js:32-41 | no error exactly for an acceptable payload; missing keys are listed, comma-separated, in the order type, amount, currency, category, description, confidence; with every key present, confidence "low" is rejected |
| VisionService.ExtractFromImage | src/services/visionService.js:43-86 | a returned payload has passed validation; without a key the error is the missing-key error; a reply without text is the missing-text error |
| VisionService.NoKeyNoRequest | src/services/visionService.js:44-46 | without a key the outcome does not depend on the reply: no request is made |
| VisionService.NoBracesUnparsable | src/services/visionService.js:77-82 | a reply without `{` is reported as "Unable to parse extraction result as JSON." |
| MediaHandler.GetPendingTimeout | src/bot/mediaHandler.js:7-10 | never NaN; 300000 when the variable is unset, empty or not a number; otherwise its numeric value |
| MediaHandler.Shown | src/bot/mediaHandler.js:17 | the "-" fallback is never falsy: "-" for a falsy value, the value itself otherwise |
| MediaHandler.ConfirmationCard | src/bot/mediaHandler.js:12-29 | the card shows amount, currency, category, type and confidence as stored; merchant, date and description show the stored value when it is truthy and "-" otherwise |
| MediaHandler.ApplyEdit | src/bot/mediaHandler.js:69-86 | an error exactly for an unknown field or a non-positive or NaN amount, with the source's messages; otherwise only the named field changes, to the parsed amount, to null for "null" in merchant or date, or to the text |
| MediaHandler.AmountEditPositive | src/bot/mediaHandler.js:74-79 | an accepted amount edit stores a positive number |
| MediaHandler.ApplyEditIdempotent | src/bot/mediaHandler.js:84-86 | applying the same edit twice equals applying it once |
| MediaHandler.PendingStore.constructor | src/bot/mediaHandler.js:4-5 | both maps start empty |
| MediaHandler.PendingStore.GetPending | src/bot/mediaHandler.js:89-91 | the stored object exactly when the phone has an entry, else null |
| MediaHandler.PendingStore.BuildPendingCard | src/bot/mediaHandler.js:108-114 | the card of the entry exactly when there is one, else null |
| MediaHandler.PendingStore.ClearPending | src/bot/mediaHandler.js:31-38 | drops the phone's entry and timer and nothing else; afterwards `hasPending` is false and the card is null; an absent phone changes nothing |
| MediaHandler.PendingStore.ClearPendingFor | src/bot/mediaHandler.js:59-61 | the same as `clearPending` |
| MediaHandler.PendingStore.SetPending | src/bot/mediaHandler.js:40-53 | the entry and a fresh timer replace the old ones; the new id differs from every armed id, so an old timer can never expire the new session |
| MediaHandler.PendingStore.Expire | src/bot/mediaHandler.js:43-51 | the armed timer drops the entry and the timer, and gives the expiry notice |
| MediaHandler.PendingStore.UpdatePendingField | src/bot/mediaHandler.js:63-87 | null and no change without an entry; otherwise the result of `ApplyEdit`, stored only on success; timers untouched, so an edit does not restart the timeout |
| MediaHandler.PendingStore.HandleMedia | src/bot/mediaHandler.js:93-106 | a failed download or extraction is an error and a non-image is the guidance text, all with the store unchanged; a successful extraction is stored under a fresh timer and its card returned |
| MediaHandler.PendingStore.SetPendingForTest | src/bot/mediaHandler.js:117-120 | stores the entry and leaves the phone without a timer |
| MediaHandler.PendingStore.ResetPendingForTest | src/bot/mediaHandler.js:122-131 | both maps end empty |
| MediaExamples.CategoryEdit | test/mediaHandler.test.js:40-47 | editing the category to "food" changes that field only |
| MediaExamples.BadAmountEdit | test/mediaHandler.test.js:52-53 | "abc" as an amount gives "Amount must be a valid positive number." |
| MediaExamples.GoodAmountEdit | test/mediaHandler.test.js:55-57 | "6,000" stores the amount 6000 |
| MediaExamples.UnknownFieldEdit | test/mediaHandler.test.js:60-64 | "foo" gives "Unknown field: foo" |
| MediaExamples.StoreReadAndClear | test/mediaHandler.test.js:34-38 | a stored entry reads back unchanged, its card shows category "shopping", and after clearing the card is null |
| MediaExamples.EditThenRead | test/mediaHandler.test.js:40-47 | after an edit, `getPending` sees the edited entry |
| FinanceService.NextMonth | src/services/financeService.js:6 | the month after, December rolling into January of the next year |
| FinanceService.ClipLow | src/services/financeService.js:5-6 | the time range begins on day -100000000, -271821-04-20, so May -271821 is the first month that begins inside it |
| FinanceService.ClipHigh | src/services/financeService.js:5-6 | the time range ends on day 100000000, 275760-09-13, so September 275760 is the last month that begins inside it |
| FinanceService.MonthDaysIncreasing | src/services/financeService.js:5-6 | each month begins after the one before it |
| FinanceService.RepresentableRange | src/services/financeService.js:5-6 | the months whose first instant TimeClip keeps are exactly those from May -271821 to September 275760 |
| FinanceService.MonthStart | src/services/financeService.js:5-6 | `Date.UTC(year, month, 1)` is a valid month exactly for finite arguments naming a month that begins inside the time range; the month carries into the year and years 0-99 mean 1900-1999 |
| FinanceService.GetMonthRange | src/services/financeService.js:3-8 | a range exactly when both numbers of the key are finite and both month starts lie inside the time range; its end is the start or the month after |
| FinanceService.RangeSpan | src/services/financeService.js:5-6 | the range spans exactly one month unless the month number is strictly between 0 and 1 |
| FinanceService.MonthKey | src/services/financeService.js:10-15 | the key ends in "-" and two digits worth the month plus one; for four-digit years it is seven characters |
| FinanceService.MonthKeyRange | src/services/reportService.js:5-10 | the key of a month from year 100 up to August 275760 reads back as that month's range, from its first instant to the first instant of the next, December rolling over |
| FinanceService.InMonthRange | src/services/reportService.js:34 | over a one-month range, `gte start, lt end` keeps exactly the instants of that month |
| FinanceService.DefaultCurrency | src/services/financeService.js:22 | the environment's currency unless unset or empty, then "NGN" |
| FinanceService.Default | src/services/financeService.js:22-24 | a destructuring default replaces only `undefined` |
| FinanceService.RowOf | src/services/financeService.js:17-36 | the row keeps type, amount, category and description, and fills currency, source "text" and rawImageUrl null by default |
| FinanceService.AggregateSum | src/services/financeService.js:41-48 | the sum is null exactly when no row of that type has an amount |
| FinanceService.ZeroDefault | src/services/financeService.js:51-52 | a missing sum counts as 0 |
| FinanceService.BalanceOf | src/services/financeService.js:51-58 | zero-defaulted income and expenses, and balance = income - expenses |
| FinanceService.GetBalance | src/services/financeService.js:39-59 | income and expenses are the zero-defaulted sums of the income and the expense rows of the whole ledger, and balance = income - expenses |
| FinanceService.SumAppend | src/services/financeService.js:41-48 | one more row adds its amount to its type's sum only |
| FinanceService.BalanceIsNet | src/services/financeService.js:57 | the balance equals the incomes minus the expenses added up row by row |
| FinanceService.RowsIn | src/services/financeService.js:66-76 | the month's rows are exactly those inside the range, each as many times as the ledger holds it |
| FinanceService.GetMonthlySummary | src/services/financeService.js:61-90 | a summary exactly when the key is a valid date; it carries the key, its income and expenses are the zero-defaulted sums over the month's rows, and its balance is their net |
| FinanceService.Ledger.AddTransaction | src/services/financeService.js:17-37 | appends exactly one row, the request with its defaults, and the balance moves by that row's signed amount |
| CategoryService.Collapse | src/services/categoryService.js:18 | `replace(/[^a-z0-9]+/g, "-")` leaves only slug characters and single dashes |
| CategoryService.StripDashes | src/services/categoryService.js:19 | no dash is left at either end |
| CategoryService.StripDashesSlice | src/services/categoryService.js:19 | the result is one contiguous piece of the input, and everything cut away before and after it is a dash |
| CategoryService.StripDashesKeeps | src/services/categoryService.js:19 | every character of the input that is not a dash occurs in the result |
| CategoryService.Slugify | src/services/categoryService.js:14-20 | the slug holds only `[a-z0-9-]`, with no dash at either end and no two dashes in a row |
| CategoryService.SlugifySlug | src/services/categoryService.js:14-20 | a slug is its own slug |
| CategoryService.SlugifyIdempotent | src/services/categoryService.js:14-20 | `slugify(slugify(s)) == slugify(s)` |
| CategoryService.SlugifyEmptyIff | src/services/categoryService.js:46-48 | the slug is empty exactly when the name has no ASCII letter or digit, as for "!!!" |
| CategoryService.SlugifyTrim | src/services/categoryService.js:40-45 | slugifying the trimmed name equals slugifying the name |
| CategoryService.CategoryStore.CreateCategory | src/services/categoryService.js:39-58 | empty names and invalid names fail with the source's messages and change nothing; an existing slug returns its row unchanged; otherwise a non-default row with the trimmed name is added |
| CategoryService.CategoryStore.ResolveOrCreateCategory | src/services/categoryService.js:60-62 | delegates to createCategory: the two error messages with the store unchanged, an existing slug's row returned unchanged, otherwise the non-default row with the trimmed name and its slug added and nothing else changed |
| CategoryService.CategoryStore.UpsertDefault | src/services/categoryService.js:25-29 | an existing row only gets `isDefault` set; a missing one is created as a default |
| CategoryService.CategoryStore.EnsureDefaultCategories | src/services/categoryService.js:22-31 | all eight default slugs exist and are default; existing rows change only their `isDefault` flag |
| ReportService.Round | src/services/reportService.js:14 | `Math.round` is the integer within half of the input, halves going up |
| ReportService.Clamp | src/services/reportService.js:13 | the percent clamped to [0, 100] |
| ReportService.FilledCellsBounds | src/services/reportService.js:13-14 | a full bar from 100%, an empty one at 0% or below, and never fewer cells for a larger percent |
| ReportService.ProgressBar | src/services/reportService.js:12-16 | exactly `size` cells between brackets, the rounded clamped share filled first |
| ReportService.Names | src/services/reportService.js:59-63 | the category names of the rows, each once, and no other |
| ReportService.FirstIndex | src/services/reportService.js:59-63 | the position of a category's first row: no earlier row has that category |
| ReportService.NamesInFirstOrder | src/services/reportService.js:59-63 | the names come in the order of their categories' first rows, the key order of `grouped` |
| ReportService.Grouped | src/services/reportService.js:59-66 | one entry per name, with the sum of that name's rows |
| ReportService.SumAbsent | src/services/reportService.js:62 | a name no row carries sums to 0 |
| ReportService.Insert | src/services/reportService.js:67 | inserting into a descending list keeps it descending |
| ReportService.InsertPermutes | src/services/reportService.js:67 | inserting adds the entry and keeps every other |
| ReportService.SortDescending | src/services/reportService.js:67 | the result is sorted by non-increasing amount and is a permutation of the input |
| ReportService.SortedOrdered | src/services/reportService.js:67 | sorted entry by entry means sorted pair by pair |
| ReportService.SortStable | src/services/reportService.js:67 | entries with equal amounts keep their relative order |
| ReportService.GroupAndSort | src/services/reportService.js:59-67 | the loop's result is the grouped totals sorted stably by descending amount |
| ReportService.GetMonthlySummary | src/services/reportService.js:27-76 | the summary carries the month, zero-defaulted totals with balance = income - expenses, and the sorted grouped categories |
| ReportService.SummaryCategories | src/services/reportService.js:59-67 | the categories are sorted, each total is its rows' sum, every name appears exactly once, and ties keep first-appearance order |
| ReportService.BudgetFor | src/services/reportService.js:83-85 | the budget of the last entry whose lower-cased category equals the key, or none |
| ReportService.BudgetForLast | src/services/reportService.js:83-85 | a later budget for the same lower-cased category replaces an earlier one |
| ReportService.PadEnd | src/services/reportService.js:112 | `padEnd(n, " ")` keeps the text and pads it with spaces to `n` characters |
| ReportService.HeaderLines | src/services/reportService.js:87-95 | seven header lines ending in "By category:" |
| ReportService.CategoryLine | src/services/reportService.js:103-112 | a plain line exactly when the budget is missing or 0; otherwise the padded name, a 10-cell bar and the rounded percentage of the budget |
| ReportService.AtLimitIff | src/services/reportService.js:109-110 | "at limit" exactly when the budget is positive and the amount reaches it |
| ReportService.LookupIgnoresCase | src/services/reportService.js:83-103 | two category names equal up to case get the same kind of line |
| ReportService.BuildSummaryMessage | src/services/reportService.js:82-117 | the header plus "No expenses recorded for this month." for no categories; otherwise the header and one line per category in the given order |
| ReportExamples.LineWithBudget | src/services/reportService.js:104-112 | with a budget other than 0 the line has a bar, the rounded percentage, and the flag at 100% or more |
| ReportExamples.RentLine | test/reportService.test.js:11-29 | rent at 80000 of 80000 is at the limit, at 100% |
| ReportExamples.FoodLine | test/reportService.test.js:12-19 | food at 42000 of 50000 is at 84%, not flagged |
| ReportExamples.TransportLine | test/reportService.test.js:13-20 | transport at 31000 of 50000 is not flagged |
| ReportExamples.SummaryExample | test/reportService.test.js:5-30 | the test's summary has ten lines; the three category lines carry bars and only rent is at the limit |
| BackfillCategories.Normalize | scripts/backfillCategories.js:25-27 | the result is trimmed and has no capital letter |
| BackfillCategories.NormalizeIsTrimLower | scripts/backfillCategories.js:25-27 | `normalize` lowers and trims, in either order |
| BackfillCategories.NormalizeIdempotent | scripts/backfillCategories.js:25-27 | normalizing twice is normalizing once |
| BackfillCategories.SlugifyNormalize | scripts/backfillCategories.js:17-27 | a normalized name has the same slug as the name |
| BackfillCategories.Quote | scripts/backfillCategories.js:29-31 | every quote in the output is part of a doubled pair |
| BackfillCategories.UnquoteQuote | scripts/backfillCategories.js:29-31 | undoubling the quotes gives the input back |
| BackfillCategories.QuoteUnquote | scripts/backfillCategories.js:29-31 | a text whose quotes are all doubled is the quoting of its undoubled form |
| BackfillCategories.ReadQuoted | scripts/backfillCategories.js:136 | a quoted value inside `'...'` reads back as exactly that value, so a name cannot break out of its SQL literal |
| BackfillCategories.SlugRoot | scripts/backfillCategories.js:88 | the base, or "category" when the base is empty, so never empty |
| BackfillCategories.CandidateInjective | scripts/backfillCategories.js:91 | different counters give different candidates |
| BackfillCategories.UniqueSlug | scripts/backfillCategories.js:87-95 | the slug was not used before, it is added and nothing else changes; it is the first free candidate among base, base-1, base-2, ... |
| BackfillCategories.NameIndexLast | scripts/backfillCategories.js:80-83 | the map holds each normalized name with the id of its last row, and no other key |
| BackfillCategories.SlugsOf | scripts/backfillCategories.js:82 | the used slugs are exactly the rows' slugs |
| BackfillCategories.LoadExistingCategoryMap | scripts/backfillCategories.js:74-85 | the loop builds exactly that name map and that slug set |
| BackfillCategories.AddName | scripts/backfillCategories.js:112 | a Set keeps its insertion order and adds a name only once |
| BackfillCategories.CollectedNames | scripts/backfillCategories.js:109-115 | the collected names start with the initial ones, have no duplicates, and are the initial names plus the added ones |
| BackfillCategories.CollectLegacyCategoryNames | scripts/backfillCategories.js:97-116 | the eight defaults first, no exact duplicates, every kept trimmed legacy name present, and nothing else |
| BackfillCategories.Pick | scripts/backfillCategories.js:122-129 | a name is kept exactly when it is non-empty after trimming and its normalized form is not in the name map |
| BackfillCategories.SelectedIff | scripts/backfillCategories.js:121-129 | a name is inserted exactly when it is a non-empty trimmed name whose normalized form was not in the name map before the loop |
| BackfillCategories.NameLiteral | scripts/backfillCategories.js:136 | the statement's first literal reads back as the name |
| BackfillCategories.SlugLiteral | scripts/backfillCategories.js:136 | the statement's second literal reads back as the slug |
| BackfillCategories.NewRow | scripts/backfillCategories.js:131-133 | a row whose slug is the first candidate from its name's slug that is not in use, which is then marked used; the row is default exactly when its normalized name is a default |
| BackfillCategories.UpsertCategories | scripts/backfillCategories.js:118-139 | the inserted names are the selected names in order; each row's slug is the first candidate from its name's slug that is free of the old slugs and of the slugs inserted before it; slugs are new and pairwise distinct; one INSERT per row |
| MessageHandler.HelpText | src/bot/messageHandler.js:24-36 | the help text splits at newlines into exactly the nine help lines |
| MessageHandler.MediaExtraction | src/bot/mediaHandler.js:94-105 | an extraction is stored exactly when the download succeeded, is an image and the extraction succeeded; it is then acceptable |
| MessageHandler.MediaReply | src/bot/messageHandler.js:39-45 | the card of the stored extraction, the guidance text for a non-image, or "Could not process image: " and the error |
| MessageHandler.HandleMediaMessage | src/bot/messageHandler.js:39-45 | replies with MediaReply; the store changes only by the stored extraction and a newly armed timer for the sender, different from every earlier one |
| MessageHandler.WordGap | src/bot/messageHandler.js:72 | `(\w+)\s+` at the start: a maximal word, then a maximal gap |
| MessageHandler.MatchTail | src/bot/messageHandler.js:72 | `(\w+)\s+(.+)$`: the word, the gap and a rest without line terminators; the rest starts with white space only when it is the last character, taken back from the gap |
| MessageHandler.MatchEdit | src/bot/messageHandler.js:72 | every match has the layout of the edit pattern |
| MessageHandler.MatchEditComplete | src/bot/messageHandler.js:72 | every text with that layout is matched, with exactly those pieces when the value does not start with white space |
| MessageHandler.MatchEditTrimmed | src/bot/messageHandler.js:72-75 | in a trimmed text the value is non-empty and trimmed |
| MessageHandler.PendingCommandOf | src/bot/messageHandler.js:52-84 | "yes" confirms and "no" discards, in any case; otherwise an edit exactly when the pattern matches, with the word and the trimmed value; otherwise the reminder |
| MessageHandler.EditCommandOf | src/bot/messageHandler.js:72-76 | `edit <word> <value>` in a trimmed text is read with that word and that value |
| MessageHandler.RepromptIff | src/bot/messageHandler.js:84 | the reminder exactly for a text that is not yes or no and has no edit layout |
| MessageHandler.ConfirmRequest | src/bot/messageHandler.js:54-61 | the request carries the pending type, amount, category, description and currency, with source "image" |
| MessageHandler.Sign | src/bot/messageHandler.js:63 | "-" exactly for an expense, "+" otherwise |
| MessageHandler.ShownAlert | src/bot/messageHandler.js:64 | the alert is shown exactly when it is a non-empty text |
| MessageHandler.Record | src/services/financeService.js:17-37 | a store error records nothing; otherwise exactly one row is appended and returned with the alert |
| MessageHandler.ConfirmPending | src/bot/messageHandler.js:52-65 | records exactly one transaction and only then clears the session; if recording throws the session stays and nothing is recorded |
| MessageHandler.EditPending | src/bot/messageHandler.js:72-82 | an edit error comes back after "⚠️ " with the entry unchanged; a success returns the card of the edited entry; timers are untouched |
| MessageHandler.HandlePending | src/bot/messageHandler.js:51-85 | the four replies of a pending session, with the ledger and store changes each makes |
| MessageHandler.IntentRequest | src/bot/messageHandler.js:91-96 | only type, amount, category and description are passed, so the defaults fill the rest |
| MessageHandler.CurrentSummary | src/bot/messageHandler.js:138-143 | the summary of the current month's key, with sorted grouped categories and balance = income - expenses |
| MessageHandler.HandleIntent | src/bot/messageHandler.js:87-165 | the decision table over the parsed intent: expense and income append one row each with their replies, balance, summary, help and unknown leave the ledger alone |
| MessageHandler.HandleMessage | src/bot/messageHandler.js:38-166 | media always goes to the image flow; a pending session routes the text without consulting the parser; otherwise the store is unchanged, an unknown text gets the fixed reply, and at most one row is added, only for an expense or income; a stored extraction arms one new timer for the sender |

## Left out

- Locale rendering is left out because it depends on ICU data: `formatCurrency` in `src/utils/formatter.js`, `formatSummary`, and `monthName` (`toLocaleString`). Replies and summary lines hold the numbers they would format, so the test's "February 2026" and "₦320,000" texts are not modelled.
- Prisma and the SQL queries are left out. Their results are parameters: the ledger rows, the expense rows of a month, the sums, the budgets, the existing category rows, the legacy names, and a store error.
- `listCategories`, `getTopExpenses` and `getBudgets` are left out because each is a query only.
- The DDL and migration steps of `scripts/backfillCategories.js` are left out: `createCategoryTableIfMissing`, `ensureCategoryIdColumns`, `backfillCategoryIds`, `rebuildTablesWithConstraints`, `tableColumns`, `hasColumn` and `main`. This includes the unique index on `name`: an INSERT is modelled as always succeeding.
- The request to the vision model, the base64 media and `JSON.parse` are parameters. These are the reply (with or without a text block) and a parse function that may fail.
- `setTimeout`, `clearTimeout`, `async` ordering, `message.reply` and `downloadMedia` are left out. A timer is an id, and expiry is the `Expire` event. The expiry notice is returned, and a failure to send it cannot undo the deletion.
- `process.env`, dotenv, `index.js` and the WhatsApp client are left out. The environment values are parameters.
- Floating point is left out: amounts are exact reals. `Number()` reads decimal literals exactly, and NaN and Infinity are values.
- `toLowerCase` maps only A-Z. Non-ASCII case mapping is not modelled.
- ReportService.PadEnd: counts Unicode scalar values, while `padEnd` counts UTF-16 code units. A category name with a character outside the Basic Multilingual Plane therefore gets one more padding space per such character in the model than in the source.
- JavaScript `in` also accepts inherited keys such as `toString`. A payload is a map of its own keys only.
- The SET_BUDGET, GET_BUDGETS and GET_TOP arms of `handleMessage` are left out. `INTENTS` has no such values, so `parseIntent` can never reach them.
- A null `msg.body` is left out; it would throw in `parseIntent`. A missing body is read as "" (the parameter default), and a non-string body is not modelled.
- In the summary, `parsed.monthOffset` is never set by the parser, and `getCurrentMonthKey` takes no argument. The summary is therefore always that of the current month.
- The SQL `TRIM` of `collectLegacyCategoryNames` removes only spaces. The model applies JavaScript `trim` to the names it is given.
- `BackfillCategories.UpsertCategories` does not add inserted names to the name map, exactly as the source does. Two names that differ only in case, such as "Food" and "food", are therefore both inserted, with slugs "food" and "food-1".
- `ReportService.Insert` models `Array.prototype.sort`, which is stable, as insertion from the back. Only the sorted, permutation and stability properties of the result are claimed, not the engine's algorithm.
- `FinanceService.Ledger.AddTransaction` does not compute a budget alert: no alert computation exists in the source, so the alert is a parameter.
- MessageHandler.HandleMessage: for a sender with no session, states only the store, the unknown reply and the size of the ledger change. For a pending discard or confirm, it leaves out the timer map. `MessageHandler.HandleIntent` and `MessageHandler.HandlePending`, which it calls, state both in full.
