/** The per-sender pending-transaction store of src/bot/mediaHandler.js. An image turns into an
    extraction that waits for the sender to confirm, discard or edit it. At most one waits per
    phone number, and each carries a timer that discards it when it fires. Timers are explicit
    events here: `SetPending` hands out a fresh timer id, and `Expire` is the callback of a
    timer that is still armed. */
module MediaHandler {
  import opened Wrappers
  import opened JsString
  import opened JsNumber
  import opened JsValue
  import IntentParser
  import VisionService

  type Phone = string

  /** Every timer `setTimeout` hands out is told apart by its id. */
  type TimerId = nat

  const DefaultTimeout: Number := Finite(300000.0)
  const ExpiredNotice: string := "⏱️ Pending transaction expired. Send the image again to continue."
  const AmountEditMessage: string := "Amount must be a valid positive number."
  const NoDownloadMessage: string := "Unable to download media from message."
  const NotAnImageMessage: string := "Please send an image receipt or bank alert screenshot."

  /** `getPendingTimeout`: `Number(PENDING_TIMEOUT_MS || 300000)`, with NaN replaced by the
      default. */
  function GetPendingTimeout(env: Option<string>): (r: Number)
    ensures r != NaN
    ensures env.None? || env == Some("") ==> r == DefaultTimeout
    ensures env.Some? && ToNumber(env.value) == NaN ==> r == DefaultTimeout
    ensures env.Some? && env.value != "" && ToNumber(env.value) != NaN ==> r == ToNumber(env.value)
  {
    var timeout := if env.None? || env.value == "" then DefaultTimeout else ToNumber(env.value);
    if timeout == NaN then DefaultTimeout else timeout
  }

  /** The card `buildConfirmationMessage` renders: the values it shows, in its order. */
  datatype Card = Card(amount: Value, currency: Value, merchant: Value, category: Value,
                       date: Value, description: Value, kind: Value, confidence: Value)

  /** `x || "-"` */
  function Shown(v: Value): (r: Value)
    ensures !Falsy(r)
    ensures Falsy(v) ==> r == Str("-")
    ensures !Falsy(v) ==> r == v
  {
    OrElse(v, Str("-"))
  }

  /** `buildConfirmationMessage`: merchant, date and description fall back to "-", the other
      fields are shown as stored. */
  function ConfirmationCard(data: Payload): (c: Card)
    ensures c.category == Get(data, "category") && c.kind == Get(data, "type")
    ensures c.confidence == Get(data, "confidence")
    ensures c.amount == Get(data, "amount") && c.currency == Get(data, "currency")
    ensures !Falsy(c.merchant) && !Falsy(c.date) && !Falsy(c.description)
    ensures Falsy(Get(data, "merchant")) <==> c.merchant == Str("-") && Get(data, "merchant") != Str("-")
    ensures c.merchant == Shown(Get(data, "merchant")) && c.date == Shown(Get(data, "date"))
    ensures c.description == Shown(Get(data, "description"))
  {
    Card(Get(data, "amount"), Get(data, "currency"), Shown(Get(data, "merchant")),
         Get(data, "category"), Shown(Get(data, "date")), Shown(Get(data, "description")),
         Get(data, "type"), Get(data, "confidence"))
  }

  /** The value an edit stores: the parsed amount, `null` for the text "null" in merchant or
      date, and otherwise the text itself. */
  function EditedValue(field: string, value: string): Value {
    if field == "amount" then Num(IntentParser.ToAmount(value))
    else if (field == "merchant" || field == "date") && value == "null" then Null
    else Str(value)
  }

  /** `updatePendingField` on the stored object `current`: the error it reports, or the
      updated object. */
  function ApplyEdit(current: Payload, field: string, value: string): (r: Result<Payload>)
    ensures r.Err? <==>
      field !in current || (field == "amount" && !IsPositive(IntentParser.ToAmount(value)))
    ensures field !in current ==> r == Err("Unknown field: " + field)
    ensures field in current && field == "amount" && !IsPositive(IntentParser.ToAmount(value))
      ==> r == Err(AmountEditMessage)
    ensures r.Ok? ==> r.value.Keys == current.Keys && r.value[field] == EditedValue(field, value)
    ensures r.Ok? ==> forall k :: k in current && k != field ==> r.value[k] == current[k]
  {
    if field !in current then Err("Unknown field: " + field)
    else if field == "amount" && !IsPositive(IntentParser.ToAmount(value)) then Err(AmountEditMessage)
    else Ok(current[field := EditedValue(field, value)])
  }

  /** An accepted amount edit stores a positive number. */
  lemma AmountEditPositive(current: Payload, value: string)
    requires ApplyEdit(current, "amount", value).Ok?
    ensures ApplyEdit(current, "amount", value).value["amount"].Num?
    ensures IsPositive(ApplyEdit(current, "amount", value).value["amount"].n)
  {
  }

  /** Applying the same edit twice is the same as applying it once. */
  lemma ApplyEditIdempotent(current: Payload, field: string, value: string)
    requires ApplyEdit(current, field, value).Ok?
    ensures ApplyEdit(ApplyEdit(current, field, value).value, field, value)
         == ApplyEdit(current, field, value)
  {
    var once := ApplyEdit(current, field, value).value;
    assert once == current[field := EditedValue(field, value)];
    assert field in once;
    assert once[field := EditedValue(field, value)] == once;
  }

  /** What a downloaded media message carries. */
  datatype Media = Media(mimetype: Option<string>, data: string)

  /** `media.mimetype?.startsWith("image/")`: a missing MIME type is not an image. */
  predicate IsImage(mimetype: Option<string>) {
    mimetype.Some? && StartsWith(mimetype.value, "image/")
  }

  /** The outcome of `handleMedia`: the error it throws, the guidance text for a non-image,
      or the stored extraction with its card and the id of its timer. */
  datatype MediaOutcome =
    | MediaFailed(message: string)
    | NotAnImage
    | Confirming(data: Payload, card: Card, timer: TimerId)

  class PendingStore {
    /** `pendingMap` */
    var pending: map<Phone, Payload>
    /** `pendingTimers`: the armed timer of each phone. */
    var timers: map<Phone, TimerId>
    /** The id the next `setTimeout` hands out. */
    var nextTimer: TimerId

    /** Every armed timer belongs to a pending entry, and every id handed out so far is below
        `nextTimer`. */
    ghost predicate Valid()
      reads this
    {
      && timers.Keys <= pending.Keys
      && forall p :: p in timers ==> timers[p] < nextTimer
    }

    constructor ()
      ensures Valid() && pending == map[] && timers == map[]
    {
      pending := map[];
      timers := map[];
      nextTimer := 0;
    }

    /** `hasPending` */
    predicate HasPending(phone: Phone)
      reads this
    {
      phone in pending
    }

    /** `getPending`: stored objects are truthy, so `|| null` only fires for a missing entry. */
    function GetPending(phone: Phone): (r: Option<Payload>)
      reads this
      ensures r.Some? <==> HasPending(phone)
      ensures r.Some? ==> r.value == pending[phone]
    {
      if phone in pending then Some(pending[phone]) else None
    }

    /** `buildPendingCard`: the card of the pending entry, or `null`. */
    function BuildPendingCard(phone: Phone): (r: Option<Card>)
      reads this
      ensures r.Some? <==> HasPending(phone)
      ensures r.Some? ==> r.value == ConfirmationCard(pending[phone])
    {
      if phone in pending then Some(ConfirmationCard(pending[phone])) else None
    }

    /** `clearPending`: cancels the phone's timer and drops its entry; other phones keep
        theirs, and an absent phone changes nothing. */
    method ClearPending(phone: Phone)
      requires Valid()
      modifies this
      ensures Valid()
      ensures pending == old(pending) - {phone} && timers == old(timers) - {phone}
      ensures nextTimer == old(nextTimer)
      ensures !HasPending(phone) && BuildPendingCard(phone) == None
      ensures phone !in old(pending) ==> pending == old(pending) && timers == old(timers)
    {
      if phone in timers {
        timers := timers - {phone};
      }
      pending := pending - {phone};
    }

    /** `clearPendingFor` */
    method ClearPendingFor(phone: Phone)
      requires Valid()
      modifies this
      ensures Valid()
      ensures pending == old(pending) - {phone} && timers == old(timers) - {phone}
      ensures nextTimer == old(nextTimer)
      ensures !HasPending(phone) && BuildPendingCard(phone) == None
    {
      ClearPending(phone);
    }

    /** `setPending`: clears the phone's entry and timer, then stores `data` and arms a new
        timer whose id no timer armed before carries, so the replaced session's timer can no
        longer fire for this phone. */
    method SetPending(phone: Phone, data: Payload) returns (timer: TimerId)
      requires Valid()
      modifies this
      ensures Valid()
      ensures pending == old(pending)[phone := data]
      ensures timers == old(timers)[phone := timer]
      ensures forall p :: p in old(timers) ==> old(timers)[p] != timer
      ensures phone in old(timers) ==> timers[phone] != old(timers)[phone]
    {
      ClearPending(phone);
      pending := pending[phone := data];
      timer := nextTimer;
      nextTimer := nextTimer + 1;
      timers := timers[phone := timer];
    }

    /** The callback of the phone's armed timer: drops the entry and the timer and gives the
        notice to send. A failure to send it is ignored, so the deletion stands. */
    method Expire(phone: Phone, timer: TimerId) returns (notice: string)
      requires Valid() && phone in timers && timers[phone] == timer
      modifies this
      ensures Valid()
      ensures pending == old(pending) - {phone} && timers == old(timers) - {phone}
      ensures nextTimer == old(nextTimer)
      ensures notice == ExpiredNotice
    {
      pending := pending - {phone};
      timers := timers - {phone};
      notice := ExpiredNotice;
    }

    /** `updatePendingField`: None (`null`) without a pending entry; otherwise the outcome of
        the edit, stored only when it succeeds. The timer is left alone, so an edit does not
        extend the session. */
    method UpdatePendingField(phone: Phone, field: string, value: string)
      returns (r: Option<Result<Payload>>)
      requires Valid()
      modifies this
      ensures Valid()
      ensures r.None? <==> phone !in old(pending)
      ensures r.Some? ==> r.value == ApplyEdit(old(pending)[phone], field, value)
      ensures r.Some? && r.value.Ok? ==> pending == old(pending)[phone := r.value.value]
      ensures !(r.Some? && r.value.Ok?) ==> pending == old(pending)
      ensures timers == old(timers) && nextTimer == old(nextTimer)
    {
      if phone !in pending {
        return None;
      }
      var outcome := ApplyEdit(pending[phone], field, value);
      if outcome.Ok? {
        pending := pending[phone := outcome.value];
      }
      r := Some(outcome);
    }

    /** `handleMedia`, with the download's result and the inputs of `extractFromImage` given.
        A failed download, a non-image or a failed extraction leaves the store as it was; a
        confirmed extraction is stored under the sender with a new timer, and it always passed
        the extraction's validation. */
    method HandleMedia(from: Phone, download: Option<Media>, apiKey: Option<string>,
                       reply: VisionService.VisionReply,
                       parseJson: string -> Option<Payload>) returns (r: MediaOutcome)
      requires Valid()
      modifies this
      ensures Valid()
      ensures download.None? ==> r == MediaFailed(NoDownloadMessage)
      ensures download.Some? && !IsImage(download.value.mimetype) ==> r == NotAnImage
      ensures download.Some? && IsImage(download.value.mimetype) ==>
        match VisionService.ExtractFromImage(apiKey, reply, parseJson)
        case Err(e) => r == MediaFailed(e)
        case Ok(p) => r.Confirming? && r.data == p
      ensures !r.Confirming? ==> pending == old(pending) && timers == old(timers)
      ensures r.Confirming? ==>
        && VisionService.Acceptable(r.data)
        && r.card == ConfirmationCard(r.data)
        && pending == old(pending)[from := r.data]
        && timers == old(timers)[from := r.timer]
        && forall p :: p in old(timers) ==> old(timers)[p] != r.timer
    {
      if download.None? {
        return MediaFailed(NoDownloadMessage);
      }
      if !IsImage(download.value.mimetype) {
        return NotAnImage;
      }
      var extracted := VisionService.ExtractFromImage(apiKey, reply, parseJson);
      if extracted.Err? {
        return MediaFailed(extracted.error);
      }
      var timer := SetPending(from, extracted.value);
      r := Confirming(extracted.value, ConfirmationCard(extracted.value), timer);
    }

    /** `__setPendingForTest`: like `setPending` but arms no timer. */
    method SetPendingForTest(phone: Phone, data: Payload)
      requires Valid()
      modifies this
      ensures Valid()
      ensures pending == old(pending)[phone := data] && timers == old(timers) - {phone}
      ensures nextTimer == old(nextTimer)
    {
      ClearPending(phone);
      pending := pending[phone := data];
    }

    /** `__resetPendingForTest`: first drops every phone with a timer (and its entry), then
        every remaining entry. */
    method ResetPendingForTest()
      requires Valid()
      modifies this
      ensures Valid()
      ensures pending == map[] && timers == map[]
      ensures nextTimer == old(nextTimer)
    {
      while timers != map[]
        invariant Valid()
        invariant nextTimer == old(nextTimer)
        decreases |timers|
      {
        var phone :| phone in timers;
        timers := timers - {phone};
        pending := pending - {phone};
      }
      while pending != map[]
        invariant Valid() && timers == map[]
        invariant nextTimer == old(nextTimer)
        decreases |pending|
      {
        var phone :| phone in pending;
        pending := pending - {phone};
      }
    }
  }
}
