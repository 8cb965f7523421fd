/** The entry point of src/bot/messageHandler.js. A media message goes to the pending store's
    image flow. A text message is routed to the sender's pending session when there is one
    (confirm, discard, edit, or a reminder) and otherwise to the intent parser, whose intent
    picks the ledger operation or report to answer with. */
module MessageHandler {
  import opened Wrappers
  import opened JsString
  import opened JsNumber
  import opened JsValue
  import IntentParser
  import VisionService
  import MediaHandler
  import FinanceService
  import ReportService

  type Phone = MediaHandler.Phone

  /** An incoming message; a `body` of None is an absent (undefined) body. */
  datatype Message = Message(from: Phone, hasMedia: bool, body: Option<string>)

  /** `msg.body || ""` */
  function BodyText(body: Option<string>): string {
    if body.Some? then body.value else ""
  }

  /** What the image flow of `handleMedia` depends on: the download's result and the inputs of
      `extractFromImage`. */
  datatype MediaInput = MediaInput(download: Option<MediaHandler.Media>, apiKey: Option<string>,
                                   reply: VisionService.VisionReply,
                                   parseJson: string -> Option<Payload>)

  /** The environment of one call: the CURRENCY variable, the current instant, what the store
      does with an `addTransaction` call (the error it throws, or the budget alert it returns
      with the row) and what the summary queries return for the current month. */
  datatype Context = Context(currencyEnv: Option<string>, now: FinanceService.Instant,
                             storeError: Option<string>, budgetAlert: Option<string>,
                             expenseRows: seq<ReportService.ExpenseRow>,
                             incomeSum: Option<real>, expenseSum: Option<real>,
                             budgets: seq<ReportService.Budget>)

  /** The reply of `handleMessage`. Money is kept as the values `formatCurrency` renders:
      `Saved` is "✅ Saved: <sign><amount in currency> (<caption>)", followed by the alert on a
      new line when there is one; `Thrown` is a rejected call. */
  datatype Reply =
    | Text(text: string)
    | CardReply(card: MediaHandler.Card)
    | Saved(sign: string, amount: Value, currency: Value, caption: Value, alert: Option<string>)
    | BalanceReply(totals: FinanceService.Totals)
    | SummaryReply(lines: seq<ReportService.SummaryLine>)
    | Thrown(error: string)

  const ImageErrorPrefix: string := "Could not process image: "
  const DiscardedMessage: string := "❌ Discarded pending transaction."
  const EditErrorPrefix: string := "⚠️ "
  const NoPendingMessage: string := "No pending transaction found."
  const PendingPrompt: string :=
    "Pending transaction detected. Reply with `yes`, `no`, or `edit [field] [value]`."
  const UnknownMessage: string := "I didn't understand that. Send help for commands."

  /** The lines of `helpMessage`. */
  const HelpLines: seq<string> := [
    "Supported commands:",
    "- spent <amount> on <category>",
    "- earned <amount> <description>",
    "- budget <category> <amount>",
    "- budgets",
    "- balance",
    "- summary | summary last month",
    "- top <n>",
    "- help"
  ]

  /** `helpMessage`: the lines joined with newlines. */
  function HelpText(): (r: string)
    ensures Split(r, '\n') == HelpLines
  {
    assert forall i :: 0 <= i < |HelpLines| ==> '\n' !in HelpLines[i];
    SplitJoin(HelpLines, '\n');
    Join(HelpLines, "\n")
  }

  // ----- The image flow (lines 39-45) -----

  /** The extraction the image flow stores: present exactly when the download succeeded, is an
      image and the extraction succeeded. */
  function MediaExtraction(m: MediaInput): (r: Option<Payload>)
    ensures r.Some? ==> VisionService.Acceptable(r.value)
    ensures r.Some? <==>
      && m.download.Some? && MediaHandler.IsImage(m.download.value.mimetype)
      && VisionService.ExtractFromImage(m.apiKey, m.reply, m.parseJson).Ok?
  {
    if m.download.None? || !MediaHandler.IsImage(m.download.value.mimetype) then None
    else
      match VisionService.ExtractFromImage(m.apiKey, m.reply, m.parseJson)
      case Err(_) => None
      case Ok(p) => Some(p)
  }

  /** The reply to a media message: a thrown error with its message after the prefix, the
      guidance text for a non-image, or the card of the stored extraction. */
  function MediaReply(m: MediaInput): (r: Reply)
    ensures r.CardReply? <==> MediaExtraction(m).Some?
    ensures r.CardReply? ==> r.card == MediaHandler.ConfirmationCard(MediaExtraction(m).value)
    ensures m.download.None? ==> r == Text(ImageErrorPrefix + MediaHandler.NoDownloadMessage)
    ensures m.download.Some? && !MediaHandler.IsImage(m.download.value.mimetype) ==>
      r == Text(MediaHandler.NotAnImageMessage)
    ensures (m.download.Some? && MediaHandler.IsImage(m.download.value.mimetype)
             && VisionService.ExtractFromImage(m.apiKey, m.reply, m.parseJson).Err?) ==>
      r == Text(ImageErrorPrefix + VisionService.ExtractFromImage(m.apiKey, m.reply, m.parseJson).error)
  {
    if m.download.None? then Text(ImageErrorPrefix + MediaHandler.NoDownloadMessage)
    else if !MediaHandler.IsImage(m.download.value.mimetype) then Text(MediaHandler.NotAnImageMessage)
    else
      match VisionService.ExtractFromImage(m.apiKey, m.reply, m.parseJson)
      case Err(e) => Text(ImageErrorPrefix + e)
      case Ok(p) => CardReply(MediaHandler.ConfirmationCard(p))
  }

  /** Lines 39-45: `handleMedia`, with what it throws turned into the prefixed text. */
  method HandleMediaMessage(store: MediaHandler.PendingStore, from: Phone, media: MediaInput)
    returns (reply: Reply)
    requires store.Valid()
    modifies store
    ensures store.Valid()
    ensures reply == MediaReply(media)
    ensures MediaExtraction(media).None? ==>
      store.pending == old(store.pending) && store.timers == old(store.timers)
    ensures MediaExtraction(media).Some? ==>
      && store.pending == old(store.pending)[from := MediaExtraction(media).value]
      && from in store.timers && store.timers == old(store.timers)[from := store.timers[from]]
      && forall p :: p in old(store.timers) ==> old(store.timers)[p] != store.timers[from]
  {
    var outcome := store.HandleMedia(from, media.download, media.apiKey, media.reply, media.parseJson);
    match outcome
    case MediaFailed(message) => reply := Text(ImageErrorPrefix + message);
    case NotAnImage => reply := Text(MediaHandler.NotAnImageMessage);
    case Confirming(_, card, _) => reply := CardReply(card);
  }

  // ----- The edit command (line 72) -----

  /** The pieces of a match of `^edit\s+(\w+)\s+(.+)$` under the `i` flag. */
  datatype EditMatch = EditMatch(keyword: string, gap1: string, field: string, gap2: string,
                                 value: string)

  /** `\w+` */
  predicate IsWord(w: string) {
    w != [] && forall i :: 0 <= i < |w| ==> IsWordChar(w[i])
  }

  /** `.+`: no character of `v` is a line terminator. */
  predicate IsLineRest(v: string) {
    v != [] && forall i :: 0 <= i < |v| ==> !IsLineTerminator(v[i])
  }

  /** `s` is the five pieces of `m` in order, each matching its part of the pattern. */
  predicate EditLayout(s: string, m: EditMatch) {
    && s == m.keyword + m.gap1 + (m.field + m.gap2 + m.value)
    && Lower(m.keyword) == "edit"
    && IntentParser.IsGap(m.gap1) && IsWord(m.field) && IntentParser.IsGap(m.gap2)
    && IsLineRest(m.value)
  }

  /** `(\w+)\s+` at the start of `s`; both runs go as far as they can. */
  function WordGap(s: string): (r: Option<IntentParser.Lead>)
    ensures r.Some? ==> s == r.value.token + r.value.gap + r.value.rest
    ensures r.Some? ==> IsWord(r.value.token) && IntentParser.IsGap(r.value.gap)
    ensures r.Some? ==> r.value.rest == [] || !IsSpace(r.value.rest[0])
  {
    var a := CountWhile(s, IsWordChar);
    var e := a + RunFrom(s, a, IsSpace);
    if a == 0 || e == a then None
    else
      SplitThree(s, a, e);
      Some(IntentParser.Lead(s[..a], s[a..e], s[e..]))
  }

  lemma WordGapOf(word: string, gap: string, rest: string)
    requires IsWord(word) && IntentParser.IsGap(gap)
    requires rest == [] || !IsSpace(rest[0])
    ensures WordGap(word + gap + rest) == Some(IntentParser.Lead(word, gap, rest))
  {
    var s := word + gap + rest;
    assert s == word + (gap + rest);
    CountWhileOf(word, gap + rest, IsWordChar);
    assert s[..|word|] == word;
    assert s[|word|..] == gap + rest;
    IntentParser.GapRun(s, gap, rest, |word|);
  }

  /** What `(\w+)\s+(.+)$` matches after the keyword and its gap. */
  datatype EditTail = EditTail(field: string, gap2: string, value: string)

  /** `(\w+)\s+(.+)$` at the start of `t`. The `\w+` and the `\s+` run as far as they can;
      when nothing is left for `(.+)`, the `\s+` gives back its final character, which `.`
      matches unless it is a line terminator. */
  function MatchTail(t: string): (r: Option<EditTail>)
    ensures r.Some? ==> t == r.value.field + r.value.gap2 + r.value.value
    ensures r.Some? ==>
      IsWord(r.value.field) && IntentParser.IsGap(r.value.gap2) && IsLineRest(r.value.value)
    ensures r.Some? && IsSpace(r.value.value[0]) ==> r.value.value == [t[|t| - 1]]
  {
    match WordGap(t)
    case None => None
    case Some(word) =>
      var gap := word.gap;
      if word.rest != [] && IsLineRest(word.rest) then
        Some(EditTail(word.token, gap, word.rest))
      else if word.rest == [] && |gap| >= 2 && !IsLineTerminator(gap[|gap| - 1]) then
        var last := [gap[|gap| - 1]];
        assert gap == gap[..|gap| - 1] + last;
        assert t == word.token + gap;
        Some(EditTail(word.token, gap[..|gap| - 1], last))
      else None
  }

  /** The match of the edit pattern: the keyword in any case and a maximal gap, then the
      tail. */
  function MatchEdit(s: string): (r: Option<EditMatch>)
    ensures r.Some? ==> EditLayout(s, r.value)
    ensures r.Some? && IsSpace(r.value.value[0]) ==> r.value.value == [s[|s| - 1]]
  {
    match IntentParser.KeywordGap(s, "edit")
    case None => None
    case Some(lead) =>
      match MatchTail(lead.rest)
      case None => None
      case Some(tail) =>
        LastOfConcat(lead.token + lead.gap, lead.rest);
        Some(EditMatch(lead.token, lead.gap, tail.field, tail.gap2, tail.value))
  }

  lemma WordNotSpace(w: string)
    requires IsWord(w)
    ensures !IsSpace(w[0])
  {
  }

  /** The pattern matches every text that has the layout, and when the value does not start
      with white space the match is that layout. */
  lemma MatchEditComplete(s: string, m: EditMatch)
    requires EditLayout(s, m)
    ensures MatchEdit(s).Some?
    ensures !IsSpace(m.value[0]) ==> MatchEdit(s) == Some(m)
  {
    var gap, rest := GreedyGap(m.field, m.gap2, m.value);
    MatchEditOf(s, m.keyword, m.gap1, m.field, gap, rest);
  }

  /** The gap before the value, extended over the white space the value starts with, and what
      remains of the value. */
  lemma GreedyGap(field: string, gap2: string, value: string) returns (gap: string, rest: string)
    requires IntentParser.IsGap(gap2) && IsLineRest(value)
    ensures field + gap2 + value == field + gap + rest
    ensures IntentParser.IsGap(gap) && (rest == [] || !IsSpace(rest[0]))
    ensures rest != [] ==> IsLineRest(rest)
    ensures rest == [] ==> |gap| >= 2 && !IsLineTerminator(gap[|gap| - 1])
    ensures !IsSpace(value[0]) ==> gap == gap2 && rest == value
  {
    var j := CountWhile(value, IsSpace);
    gap := gap2 + value[..j];
    rest := value[j..];
    assert value == value[..j] + rest;
    assert field + gap2 + value == field + gap + rest;
    assert AllSpace(gap);
    if rest == [] {
      assert gap[|gap| - 1] == value[|value| - 1];
    } else {
      LineRestSuffix(value, j);
    }
  }

  lemma LineRestSuffix(v: string, j: nat)
    requires IsLineRest(v) && j < |v|
    ensures IsLineRest(v[j..])
  {
    assert forall i :: 0 <= i < |v[j..]| ==> v[j..][i] == v[j + i];
  }

  /** The match of a text made of the keyword, a gap, the word, a maximal gap and the rest. */
  lemma MatchEditOf(s: string, keyword: string, gap1: string, field: string, gap: string,
                    rest: string)
    requires s == keyword + gap1 + (field + gap + rest)
    requires Lower(keyword) == "edit" && IntentParser.IsGap(gap1)
    requires IsWord(field) && IntentParser.IsGap(gap)
    requires rest == [] || !IsSpace(rest[0])
    ensures IsLineRest(rest) ==> MatchEdit(s) == Some(EditMatch(keyword, gap1, field, gap, rest))
    ensures rest == [] && |gap| >= 2 && !IsLineTerminator(gap[|gap| - 1]) ==> MatchEdit(s).Some?
  {
    WordNotSpace(field);
    IntentParser.KeywordGapOf(keyword, gap1, field + gap + rest, "edit");
    WordGapOf(field, gap, rest);
  }

  /** In a trimmed text the value of a match does not start or end with white space. */
  lemma MatchEditTrimmed(s: string)
    requires IsTrimmed(s) && MatchEdit(s).Some?
    ensures IsTrimmed(MatchEdit(s).value.value) && MatchEdit(s).value.value != []
    ensures !IsSpace(MatchEdit(s).value.value[0])
  {
    var m := MatchEdit(s).value;
    LastOfConcat(m.keyword + m.gap1, m.field + m.gap2 + m.value);
    LastOfConcat(m.field + m.gap2, m.value);
  }

  lemma LastOfConcat(x: string, y: string)
    requires y != []
    ensures (x + y)[|x + y| - 1] == y[|y| - 1]
  {
  }

  // ----- The pending session (lines 47-85) -----

  /** What the trimmed text of a message asks of a pending session. */
  datatype PendingCommand = Confirm | Discard | Edit(field: string, value: string) | Reprompt

  /** Lines 52, 67 and 72-73: "yes" and "no" in any case, then the edit pattern, whose value is
      trimmed. */
  function PendingCommandOf(text: string): (c: PendingCommand)
    ensures c.Confirm? <==> Lower(text) == "yes"
    ensures c.Discard? <==> Lower(text) == "no"
    ensures Lower(text) != "yes" && Lower(text) != "no" ==> (c.Edit? <==> MatchEdit(text).Some?)
    ensures c.Edit? ==> MatchEdit(text).Some? && c.field == MatchEdit(text).value.field
    ensures c.Edit? ==> c.value == Trim(MatchEdit(text).value.value)
  {
    var lower := Lower(text);
    if lower == "yes" then Confirm
    else if lower == "no" then Discard
    else
      match MatchEdit(text)
      case Some(m) => Edit(m.field, Trim(m.value))
      case None => Reprompt
  }

  /** An edit command in a trimmed text is recognised with its field and its value as
      written. */
  lemma EditCommandOf(text: string, m: EditMatch)
    requires IsTrimmed(text) && EditLayout(text, m) && !IsSpace(m.value[0])
    ensures PendingCommandOf(text) == Edit(m.field, m.value)
  {
    EditIsNotYesNo(text, m);
    MatchEditComplete(text, m);
    MatchEditTrimmed(text);
    TrimTrimmed(m.value);
  }

  lemma EditIsNotYesNo(text: string, m: EditMatch)
    requires EditLayout(text, m)
    ensures Lower(text) != "yes" && Lower(text) != "no"
  {
    assert |m.keyword| == 4;
    assert |Lower(text)| >= 4;
  }

  /** The reminder is given exactly for a text that is neither "yes" nor "no" in any case and
      has no edit layout at all. */
  lemma RepromptIff(text: string)
    ensures PendingCommandOf(text).Reprompt? <==>
      Lower(text) != "yes" && Lower(text) != "no" && forall m :: !EditLayout(text, m)
  {
    if Lower(text) != "yes" && Lower(text) != "no" && !PendingCommandOf(text).Reprompt? {
      assert EditLayout(text, MatchEdit(text).value);
    }
    forall m | EditLayout(text, m)
      ensures !PendingCommandOf(text).Reprompt?
    {
      MatchEditComplete(text, m);
    }
  }

  /** The request line 54 sends for a confirmed extraction. */
  function ConfirmRequest(p: Payload): (req: FinanceService.TxRequest)
    ensures req.kind == Get(p, "type") && req.amount == Get(p, "amount")
    ensures req.category == Get(p, "category") && req.description == Get(p, "description")
    ensures req.currency == Get(p, "currency")
    ensures req.source == Str("image") && req.rawImageUrl == Undefined
  {
    FinanceService.TxRequest(Get(p, "type"), Get(p, "amount"), Get(p, "category"),
                             Get(p, "description"), Get(p, "currency"), Str("image"), Undefined)
  }

  /** `pending.type === "expense" ? "-" : "+"` */
  function Sign(kind: Value): (r: string)
    ensures r == "-" <==> kind == Str("expense")
    ensures r == "-" || r == "+"
  {
    if kind == Str("expense") then "-" else "+"
  }

  /** `budgetAlert ? ... : saved`: an alert is shown only when it is a non-empty string. */
  function ShownAlert(alert: Option<string>): (r: Option<string>)
    ensures r.Some? <==> alert.Some? && alert.value != ""
    ensures r.Some? ==> r == alert
  {
    if alert.Some? && alert.value != "" then alert else None
  }

  /** The store's answer to one `addTransaction` call: the error it throws, or the appended row
      with its alert. */
  method Record(ledger: FinanceService.Ledger, req: FinanceService.TxRequest, ctx: Context)
    returns (r: Result<FinanceService.StoreOutcome>)
    modifies ledger
    ensures ctx.storeError.Some? ==> r == Err(ctx.storeError.value) && ledger.rows == old(ledger.rows)
    ensures ctx.storeError.None? ==>
      && r == Ok(FinanceService.StoreOutcome(FinanceService.RowOf(req, ctx.currencyEnv, ctx.now),
                                             ctx.budgetAlert))
      && ledger.rows == old(ledger.rows) + [r.value.transaction]
  {
    if ctx.storeError.Some? {
      return Err(ctx.storeError.value);
    }
    var out := ledger.AddTransaction(req, ctx.currencyEnv, ctx.now, ctx.budgetAlert);
    r := Ok(out);
  }

  /** Lines 52-65: records the pending extraction as one transaction and only then clears the
      session; when recording throws, the session stays and nothing is recorded. */
  method ConfirmPending(store: MediaHandler.PendingStore, ledger: FinanceService.Ledger,
                        from: Phone, ctx: Context) returns (reply: Reply)
    requires store.Valid() && from in store.pending
    modifies store, ledger
    ensures store.Valid()
    ensures var p := old(store.pending)[from];
      var row := FinanceService.RowOf(ConfirmRequest(p), ctx.currencyEnv, ctx.now);
      && (ctx.storeError.Some? ==>
            && reply == Thrown(ctx.storeError.value) && ledger.rows == old(ledger.rows)
            && store.pending == old(store.pending) && store.timers == old(store.timers))
      && (ctx.storeError.None? ==>
            && ledger.rows == old(ledger.rows) + [row]
            && store.pending == old(store.pending) - {from}
            && store.timers == old(store.timers) - {from}
            && reply == Saved(Sign(Get(p, "type")), row.amount, row.currency, row.category,
                              ShownAlert(ctx.budgetAlert)))
  {
    var pending := store.pending[from];
    var recorded := Record(ledger, ConfirmRequest(pending), ctx);
    if recorded.Err? {
      return Thrown(recorded.error);
    }
    store.ClearPendingFor(from);
    var transaction := recorded.value.transaction;
    reply := Saved(Sign(Get(pending, "type")), transaction.amount, transaction.currency,
                   transaction.category, ShownAlert(recorded.value.budgetAlert));
  }

  /** Lines 72-82: applies the edit to the pending entry; an error comes back after the warning
      sign with the entry unchanged, a success with the card of the edited entry. */
  method EditPending(store: MediaHandler.PendingStore, from: Phone, field: string, value: string)
    returns (reply: Reply)
    requires store.Valid() && from in store.pending
    modifies store
    ensures store.Valid()
    ensures store.timers == old(store.timers)
    ensures match MediaHandler.ApplyEdit(old(store.pending)[from], field, value)
      case Err(e) => reply == Text(EditErrorPrefix + e) && store.pending == old(store.pending)
      case Ok(q) =>
        && reply == CardReply(MediaHandler.ConfirmationCard(q))
        && store.pending == old(store.pending)[from := q]
  {
    var result := store.UpdatePendingField(from, field, value);
    if result.Some? && result.value.Err? {
      return Text(EditErrorPrefix + result.value.error);
    }
    var card := store.BuildPendingCard(from);
    reply := if card.Some? then CardReply(card.value) else Text(NoPendingMessage);
  }

  /** Lines 47-85: the routing of a text while the sender has a pending session. */
  method HandlePending(store: MediaHandler.PendingStore, ledger: FinanceService.Ledger,
                       from: Phone, text: string, ctx: Context) returns (reply: Reply)
    requires store.Valid() && from in store.pending
    modifies store, ledger
    ensures store.Valid()
    ensures var p := old(store.pending)[from];
      match PendingCommandOf(text)
      case Confirm =>
        var row := FinanceService.RowOf(ConfirmRequest(p), ctx.currencyEnv, ctx.now);
        && (ctx.storeError.Some? ==>
              && reply == Thrown(ctx.storeError.value) && ledger.rows == old(ledger.rows)
              && store.pending == old(store.pending) && store.timers == old(store.timers))
        && (ctx.storeError.None? ==>
              && ledger.rows == old(ledger.rows) + [row]
              && store.pending == old(store.pending) - {from}
              && store.timers == old(store.timers) - {from}
              && reply == Saved(Sign(Get(p, "type")), row.amount, row.currency, row.category,
                                ShownAlert(ctx.budgetAlert)))
      case Discard =>
        && reply == Text(DiscardedMessage) && ledger.rows == old(ledger.rows)
        && store.pending == old(store.pending) - {from}
        && store.timers == old(store.timers) - {from}
      case Edit(field, value) =>
        && ledger.rows == old(ledger.rows) && store.timers == old(store.timers)
        && (match MediaHandler.ApplyEdit(p, field, value)
            case Err(e) => reply == Text(EditErrorPrefix + e) && store.pending == old(store.pending)
            case Ok(q) =>
              && reply == CardReply(MediaHandler.ConfirmationCard(q))
              && store.pending == old(store.pending)[from := q])
      case Reprompt =>
        && reply == Text(PendingPrompt) && ledger.rows == old(ledger.rows)
        && store.pending == old(store.pending) && store.timers == old(store.timers)
  {
    match PendingCommandOf(text)
    case Confirm =>
      reply := ConfirmPending(store, ledger, from, ctx);
    case Discard =>
      store.ClearPendingFor(from);
      reply := Text(DiscardedMessage);
    case Edit(field, value) =>
      reply := EditPending(store, from, field, value);
    case Reprompt =>
      reply := Text(PendingPrompt);
  }

  // ----- The intent switch (lines 87-165) -----

  /** The request of an ADD_EXPENSE or ADD_INCOME intent (lines 91-96 and 102-107): only
      type, amount, category and description are passed, so the defaults apply to the rest. */
  function IntentRequest(kind: string, amount: real, category: string, description: string)
    : (req: FinanceService.TxRequest)
    ensures req.kind == Str(kind) && req.amount == Num(Finite(amount))
    ensures req.category == Str(category) && req.description == Str(description)
    ensures req.currency == Undefined && req.source == Undefined && req.rawImageUrl == Undefined
  {
    FinanceService.TxRequest(Str(kind), Num(Finite(amount)), Str(category), Str(description),
                             Undefined, Undefined, Undefined)
  }

  /** The summary of lines 139-143 for the current month, from what its queries return. The
      month offset is not passed on: `getCurrentMonthKey` takes no argument. */
  function CurrentSummary(ctx: Context): (s: ReportService.Summary)
    requires FinanceService.ValidMonth(ctx.now.month)
    ensures s.month == FinanceService.MonthKey(ctx.now.month)
    ensures s.totals.balance == s.totals.income - s.totals.expenses
    ensures s.categories == ReportService.SortDescending(ReportService.Grouped(ctx.expenseRows))
  {
    ReportService.Summary(FinanceService.MonthKey(ctx.now.month),
                          FinanceService.BalanceOf(ctx.incomeSum, ctx.expenseSum),
                          ReportService.SortDescending(ReportService.Grouped(ctx.expenseRows)))
  }

  /** Lines 87-165: the reply to the parsed intent of a message from a sender with no pending
      session. */
  method HandleIntent(ledger: FinanceService.Ledger, body: Option<string>, ctx: Context)
    returns (reply: Reply)
    requires FinanceService.ValidMonth(ctx.now.month)
    modifies ledger
    ensures match IntentParser.ParseIntent(BodyText(body))
      case AddExpense(amount, category, description) =>
        var row := FinanceService.RowOf(IntentRequest("expense", amount, category, description),
                                        ctx.currencyEnv, ctx.now);
        && (ctx.storeError.Some? ==>
              reply == Thrown(ctx.storeError.value) && ledger.rows == old(ledger.rows))
        && (ctx.storeError.None? ==>
              && ledger.rows == old(ledger.rows) + [row]
              && reply == Saved("-", row.amount, row.currency, row.category,
                                ShownAlert(ctx.budgetAlert)))
      case AddIncome(amount, category, description) =>
        var row := FinanceService.RowOf(IntentRequest("income", amount, category, description),
                                        ctx.currencyEnv, ctx.now);
        && (ctx.storeError.Some? ==>
              reply == Thrown(ctx.storeError.value) && ledger.rows == old(ledger.rows))
        && (ctx.storeError.None? ==>
              && ledger.rows == old(ledger.rows) + [row]
              && reply == Saved("+", row.amount, row.currency,
                                OrElse(row.description, row.category), None))
      case GetBalance =>
        reply == BalanceReply(FinanceService.GetBalance(old(ledger.rows)))
        && ledger.rows == old(ledger.rows)
      case GetSummary =>
        reply == SummaryReply(ReportService.SummaryLines(CurrentSummary(ctx), ctx.budgets))
        && ledger.rows == old(ledger.rows)
      case Help => reply == Text(HelpText()) && ledger.rows == old(ledger.rows)
      case Unknown => reply == Text(UnknownMessage) && ledger.rows == old(ledger.rows)
  {
    var parsed := IntentParser.ParseIntent(BodyText(body));
    match parsed
    case AddExpense(amount, category, description) =>
      var recorded := Record(ledger, IntentRequest("expense", amount, category, description), ctx);
      if recorded.Err? {
        return Thrown(recorded.error);
      }
      var transaction := recorded.value.transaction;
      reply := Saved("-", transaction.amount, transaction.currency, transaction.category,
                     ShownAlert(recorded.value.budgetAlert));
    case AddIncome(amount, category, description) =>
      var recorded := Record(ledger, IntentRequest("income", amount, category, description), ctx);
      if recorded.Err? {
        return Thrown(recorded.error);
      }
      var transaction := recorded.value.transaction;
      reply := Saved("+", transaction.amount, transaction.currency,
                     OrElse(transaction.description, transaction.category), None);
    case GetBalance =>
      reply := BalanceReply(FinanceService.GetBalance(ledger.rows));
    case GetSummary =>
      var month := FinanceService.MonthKey(ctx.now.month);
      var summary := ReportService.GetMonthlySummary(month, ctx.expenseRows, ctx.incomeSum,
                                                     ctx.expenseSum);
      var lines := ReportService.BuildSummaryMessage(summary, ctx.budgets);
      reply := SummaryReply(lines);
    case Help =>
      reply := Text(HelpText());
    case Unknown =>
      reply := Text(UnknownMessage);
  }

  // ----- handleMessage -----

  /** `handleMessage`: media first, whatever the session; then the pending session of the
      sender, whose text never reaches the parser; then the parsed intent, with the session
      store left alone. */
  method HandleMessage(store: MediaHandler.PendingStore, ledger: FinanceService.Ledger,
                       msg: Message, media: MediaInput, ctx: Context) returns (reply: Reply)
    requires store.Valid() && FinanceService.ValidMonth(ctx.now.month)
    modifies store, ledger
    ensures store.Valid()
    ensures msg.hasMedia ==>
      && reply == MediaReply(media) && ledger.rows == old(ledger.rows)
      && (MediaExtraction(media).None? ==>
            store.pending == old(store.pending) && store.timers == old(store.timers))
      && (MediaExtraction(media).Some? ==>
            && store.pending == old(store.pending)[msg.from := MediaExtraction(media).value]
            && msg.from in store.timers
            && store.timers == old(store.timers)[msg.from := store.timers[msg.from]]
            && forall p :: p in old(store.timers) ==> old(store.timers)[p] != store.timers[msg.from])
    ensures !msg.hasMedia && msg.from in old(store.pending) ==>
      var command := PendingCommandOf(Trim(BodyText(msg.body)));
      && (command.Reprompt? ==>
            && reply == Text(PendingPrompt) && ledger.rows == old(ledger.rows)
            && store.pending == old(store.pending) && store.timers == old(store.timers))
      && (command.Discard? ==>
            && reply == Text(DiscardedMessage) && ledger.rows == old(ledger.rows)
            && store.pending == old(store.pending) - {msg.from})
      && (command.Confirm? ==>
            var row := FinanceService.RowOf(ConfirmRequest(old(store.pending)[msg.from]),
                                            ctx.currencyEnv, ctx.now);
            && (ctx.storeError.None? ==>
                  && ledger.rows == old(ledger.rows) + [row]
                  && store.pending == old(store.pending) - {msg.from}
                  && reply == Saved(Sign(Get(old(store.pending)[msg.from], "type")), row.amount,
                                    row.currency, row.category, ShownAlert(ctx.budgetAlert)))
            && (ctx.storeError.Some? ==>
                  && reply == Thrown(ctx.storeError.value)
                  && ledger.rows == old(ledger.rows) && store.pending == old(store.pending)))
      && (command.Edit? ==>
            && ledger.rows == old(ledger.rows) && store.timers == old(store.timers)
            && match MediaHandler.ApplyEdit(old(store.pending)[msg.from], command.field, command.value)
               case Err(e) => reply == Text(EditErrorPrefix + e) && store.pending == old(store.pending)
               case Ok(q) =>
                 reply == CardReply(MediaHandler.ConfirmationCard(q))
                 && store.pending == old(store.pending)[msg.from := q])
    ensures !msg.hasMedia && msg.from !in old(store.pending) ==>
      && store.pending == old(store.pending) && store.timers == old(store.timers)
      && (IntentParser.ParseIntent(BodyText(msg.body)) == IntentParser.Unknown ==>
            reply == Text(UnknownMessage))
      && (ledger.rows == old(ledger.rows) || |ledger.rows| == |old(ledger.rows)| + 1)
      && (!IntentParser.ParseIntent(BodyText(msg.body)).AddExpense?
          && !IntentParser.ParseIntent(BodyText(msg.body)).AddIncome? ==>
            ledger.rows == old(ledger.rows))
  {
    if msg.hasMedia {
      reply := HandleMediaMessage(store, msg.from, media);
      return;
    }
    var text := Trim(BodyText(msg.body));
    if store.HasPending(msg.from) {
      reply := HandlePending(store, ledger, msg.from, text, ctx);
      return;
    }
    reply := HandleIntent(ledger, msg.body, ctx);
  }
}
