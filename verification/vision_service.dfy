/** The checks around the receipt-reading model call (src/services/visionService.js): picking
    the JSON object out of the model's reply, the required-field and confidence checks, and
    the order in which `extractFromImage` fails. The request itself and `JSON.parse` are
    parameters. */
module VisionService {
  import opened Wrappers
  import opened JsString
  import opened JsValue

  const NoJsonMessage: string := "Vision response did not contain JSON."
  const MissingFieldsPrefix: string := "Vision response missing required fields: "
  const LowConfidenceMessage: string := "Low confidence extraction. Please retake the photo."
  const NoApiKeyMessage: string := "ANTHROPIC_API_KEY is not configured."
  const NoTextMessage: string := "Vision response missing text content."
  const UnparsableMessage: string := "Unable to parse extraction result as JSON."

  /** `s.indexOf(c)`: the first position of `c`, or -1. */
  function IndexOf(s: string, c: char): (r: int)
    ensures r == -1 <==> c !in s
    ensures r != -1 ==> 0 <= r < |s| && s[r] == c && c !in s[..r]
  {
    if s == [] then -1
    else if s[0] == c then 0
    else
      var k := IndexOf(s[1..], c);
      if k == -1 then -1
      else
        assert s[..k + 1] == [s[0]] + s[1..][..k];
        k + 1
  }

  /** `s.lastIndexOf(c)`: the last position of `c`, or -1. */
  function LastIndexOf(s: string, c: char): (r: int)
    ensures r == -1 <==> c !in s
    ensures r != -1 ==> 0 <= r < |s| && s[r] == c && c !in s[r + 1..]
  {
    if s == [] then -1
    else if s[|s| - 1] == c then |s| - 1
    else
      var k := LastIndexOf(s[..|s| - 1], c);
      if k == -1 then
        assert s == s[..|s| - 1] + [s[|s| - 1]];
        -1
      else
        assert s[k + 1..] == s[..|s| - 1][k + 1..] + [s[|s| - 1]];
        k
  }

  /** The first occurrence found at `i` is what `indexOf` reports. */
  lemma {:induction false} IndexOfAt(s: string, c: char, i: nat)
    requires i < |s| && s[i] == c && c !in s[..i]
    ensures IndexOf(s, c) == i
  {
    if i > 0 {
      assert s[0] in s[..i];
      assert s[1..][..i - 1] == s[1..i];
      assert forall k :: 0 <= k < |s[1..i]| ==> s[1..i][k] == s[..i][k + 1];
      IndexOfAt(s[1..], c, i - 1);
    }
  }

  /** The last occurrence found at `i` is what `lastIndexOf` reports. */
  lemma {:induction false} LastIndexOfAt(s: string, c: char, i: nat)
    requires i < |s| && s[i] == c && c !in s[i + 1..]
    ensures LastIndexOf(s, c) == i
  {
    if i < |s| - 1 {
      assert s[|s| - 1] in s[i + 1..];
      var t := s[..|s| - 1];
      assert t[i + 1..] == s[i + 1..|s| - 1];
      var u, v := t[i + 1..], s[i + 1..];
      assert forall k :: 0 <= k < |u| ==> u[k] == v[k];
      LastIndexOfAt(t, c, i);
    }
  }

  /** `s.slice(start, end)` for positions inside the text: empty when `end` is not after
      `start`. */
  function Slice(s: string, start: nat, end: nat): (r: string)
    requires start <= |s| && end <= |s|
    ensures end <= start ==> r == []
    ensures start < end ==> r == s[start..end]
  {
    if end <= start then [] else s[start..end]
  }

  /** The braces step on already trimmed text. */
  function JsonSlice(cleaned: string): (r: Result<string>)
    ensures r.Err? <==> '{' !in cleaned || '}' !in cleaned
    ensures r.Err? ==> r.error == NoJsonMessage
    ensures r.Ok? && r.value != [] ==> r.value[0] == '{' && r.value[|r.value| - 1] == '}'
  {
    var first := IndexOf(cleaned, '{');
    var last := LastIndexOf(cleaned, '}');
    if first == -1 || last == -1 then Err(NoJsonMessage)
    else Ok(Slice(cleaned, first, last + 1))
  }

  /** `parseJsonResponse` up to `JSON.parse`: the text from the first `{` to the last `}` of
      the trimmed reply. */
  function ParseJsonResponse(text: string): (r: Result<string>)
    ensures r.Err? <==> '{' !in Trim(text) || '}' !in Trim(text)
    ensures r.Err? ==> r.error == NoJsonMessage
    ensures r.Ok? && r.value != [] ==> r.value[0] == '{' && r.value[|r.value| - 1] == '}'
  {
    JsonSlice(Trim(text))
  }

  /** Chatter around a JSON object is dropped when it holds no `{` before the object and no
      `}` after it. */
  lemma ParseJsonOf(text: string, before: string, json: string, after: string)
    requires Trim(text) == before + json + after
    requires |json| >= 2 && json[0] == '{' && json[|json| - 1] == '}'
    requires '{' !in before && '}' !in after
    ensures ParseJsonResponse(text) == Ok(json)
  {
    JsonSliceOf(before, json, after);
  }

  lemma JsonSliceOf(before: string, json: string, after: string)
    requires |json| >= 2 && json[0] == '{' && json[|json| - 1] == '}'
    requires '{' !in before && '}' !in after
    ensures JsonSlice(before + json + after) == Ok(json)
  {
    var cleaned := before + json + after;
    var i := |before|;
    var j := |before| + |json| - 1;
    assert cleaned[..i] == before;
    assert cleaned[j + 1..] == after;
    IndexOfAt(cleaned, '{', i);
    LastIndexOfAt(cleaned, '}', j);
    assert cleaned[i..j + 1] == json;
  }

  /** A reply whose last `}` comes before its first `{` yields the empty text, which
      `JSON.parse` then rejects. */
  lemma ParseJsonBackwards(text: string, before: string, after: string)
    requires Trim(text) == before + "}" + after
    requires '{' !in before && '{' in after && '}' !in after
    ensures ParseJsonResponse(text) == Ok([])
  {
    JsonSliceBackwards(before, after);
  }

  lemma JsonSliceBackwards(before: string, after: string)
    requires '{' !in before && '{' in after && '}' !in after
    ensures JsonSlice(before + "}" + after) == Ok([])
  {
    var cleaned := before + "}" + after;
    var i := |before|;
    assert cleaned[i + 1..] == after;
    LastIndexOfAt(cleaned, '}', i);
    var first := IndexOf(cleaned, '{');
    assert cleaned[..i + 1] == before + "}";
    assert '{' !in cleaned[..i + 1];
    assert first > i;
  }

  /** The keys an extraction must carry, in the order they are reported. */
  const RequiredFields: seq<string> :=
    ["type", "amount", "currency", "category", "description", "confidence"]

  /** `required.filter((key) => !(key in payload))` */
  function MissingFields(keys: seq<string>, payload: Payload): (r: seq<string>)
    ensures forall k :: k in r <==> k in keys && k !in payload
    ensures |r| <= |keys|
  {
    if keys == [] then []
    else (if keys[0] in payload then [] else [keys[0]]) + MissingFields(keys[1..], payload)
  }

  /** Filtering keeps the order of the keys: it distributes over concatenation. */
  lemma {:induction false} MissingFieldsConcat(a: seq<string>, b: seq<string>, payload: Payload)
    ensures MissingFields(a + b, payload) == MissingFields(a, payload) + MissingFields(b, payload)
  {
    if a != [] {
      var head := if a[0] in payload then [] else [a[0]];
      assert (a + b)[0] == a[0];
      assert (a + b)[1..] == a[1..] + b;
      MissingFieldsConcat(a[1..], b, payload);
      calc {
        MissingFields(a + b, payload);
        head + MissingFields(a[1..] + b, payload);
        head + (MissingFields(a[1..], payload) + MissingFields(b, payload));
        (head + MissingFields(a[1..], payload)) + MissingFields(b, payload);
        MissingFields(a, payload) + MissingFields(b, payload);
      }
    } else {
      assert a + b == b;
    }
  }

  /** What `validateExtractedPayload` lets through. */
  predicate Acceptable(payload: Payload) {
    && (forall k :: k in RequiredFields ==> k in payload)
    && Get(payload, "confidence") != Str("low")
  }

  /** `validateExtractedPayload`: the error it throws, or None when it returns. */
  function ValidateExtractedPayload(payload: Payload): (error: Option<string>)
    ensures error.None? <==> Acceptable(payload)
    ensures MissingFields(RequiredFields, payload) != [] ==>
      error == Some(MissingFieldsPrefix + Join(MissingFields(RequiredFields, payload), ", "))
    ensures MissingFields(RequiredFields, payload) == [] && Get(payload, "confidence") == Str("low")
      ==> error == Some(LowConfidenceMessage)
  {
    var missing := MissingFields(RequiredFields, payload);
    if |missing| > 0 then
      assert missing[0] in missing;
      Some(MissingFieldsPrefix + Join(missing, ", "))
    else if Get(payload, "confidence") == Str("low") then
      Some(LowConfidenceMessage)
    else
      None
  }

  /** The outcome of the request to the model: it failed with a message, or it returned
      content whose first text block (if any) is given. */
  datatype VisionReply = RequestFailed(message: string) | Replied(textBlock: Option<string>)

  /** `!process.env.ANTHROPIC_API_KEY` fails for an unset or empty variable. */
  predicate KeyConfigured(apiKey: Option<string>) {
    apiKey.Some? && apiKey.value != ""
  }

  /** `extractFromImage`, given the environment's API key, the reply the request would get
      and `JSON.parse` (None when it throws). */
  function ExtractFromImage(apiKey: Option<string>, reply: VisionReply,
                            parseJson: string -> Option<Payload>): (r: Result<Payload>)
    ensures r.Ok? ==> Acceptable(r.value)
    ensures !KeyConfigured(apiKey) ==> r == Err(NoApiKeyMessage)
    ensures KeyConfigured(apiKey) && reply.Replied? && reply.textBlock.None? ==>
      r == Err(NoTextMessage)
  {
    if !KeyConfigured(apiKey) then Err(NoApiKeyMessage)
    else
      match reply
      case RequestFailed(message) => Err(message)
      case Replied(None) => Err(NoTextMessage)
      case Replied(Some(text)) =>
        match ParseJsonResponse(text)
        case Err(_) => Err(UnparsableMessage)
        case Ok(json) =>
          match parseJson(json)
          case None => Err(UnparsableMessage)
          case Some(payload) =>
            match ValidateExtractedPayload(payload)
            case Some(error) => Err(error)
            case None => Ok(payload)
  }

  /** Without a key the request is never made: the outcome does not depend on the reply. */
  lemma NoKeyNoRequest(apiKey: Option<string>, reply1: VisionReply, reply2: VisionReply,
                       parseJson: string -> Option<Payload>)
    requires !KeyConfigured(apiKey)
    ensures ExtractFromImage(apiKey, reply1, parseJson) == ExtractFromImage(apiKey, reply2, parseJson)
  {
  }

  /** A reply without braces never reaches the validation: the braces error is reported as a
      parse failure. */
  lemma NoBracesUnparsable(apiKey: Option<string>, text: string,
                           parseJson: string -> Option<Payload>)
    requires KeyConfigured(apiKey) && '{' !in Trim(text)
    ensures ExtractFromImage(apiKey, Replied(Some(text)), parseJson) == Err(UnparsableMessage)
  {
  }
}
