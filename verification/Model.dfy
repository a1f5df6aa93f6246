/** What a hosted model is asked and what comes back, whichever vendor answers (crates/dam-ai/src/model.rs),
    together with the three decisions the HTTP transport makes (crates/dam-ai/src/http.rs). */
module Model {
  import opened Json
  import opened Pricing
  import opened Text
  import opened Widths
  import opened Wrappers

  /** What an error message interpolates. The wording around it is not modelled. */
  datatype Detail =
    | ProviderRefused(status: nat, words: string)
    | ProviderFailed(status: nat, words: string)
    | NotJson(status: nat)
    | Unreachable(why: string)
    | NoContent
    | NotTheSchemaJson
    | NoStructuredOutput
    | SchemaMismatch
    | NoChoices
    | NoMessageContent
    | EmptyBatch
    | BatchTooLarge(size: nat)
    | NoBatchId
    | LineNotJson(line: nat)
    | NoCustomId
    | NoMessage(customId: string)
    | UnknownResultType(customId: string, kind: string)
    | TextReplyToJson(status: nat, text: string)

  datatype ModelError =
    | Declined(why: Option<string>)
    | Unauthorised
    | RateLimited(wait: Option<U64>)
    | Transient(detail: Detail)
    | Unreadable(detail: Detail)
  {
    /** Whether the queue should try again. */
    predicate IsTransient() {
      RateLimited? || Transient?
    }
  }

  datatype Part = Text(text: string) | Image(mediaType: string, base64: string)

  datatype Effort = Low | Medium | High

  datatype Ask = Ask(instructions: string, parts: seq<Part>, schema: Option<Json>, maxTokens: nat, effort: Effort)

  datatype Completion = Completion(text: string, structured: Option<Json>, model: string, usage: Usage)

  datatype Answer = Answer(status: nat, body: Json, retryAfter: Option<U64>)

  predicate IsSuccess(status: nat) {
    200 <= status < 300
  }

  function StatusError(status: nat, body: Json, retryAfter: Option<U64>): ModelError {
    var words := AsStr(Pointer(body, ["error", "message"])).GetOr("no reason given");
    if status == 401 || status == 403 then Unauthorised
    else if status == 429 then RateLimited(retryAfter)
    else if 400 <= status <= 499 then Unreadable(ProviderRefused(status, words))
    else Transient(ProviderFailed(status, words))
  }

  // ---------- the transport ----------

  /** `Retry-After` in delay-seconds form; anything else, a date included, is no hint. */
  function RetryAfterSeconds(header: Option<string>): Option<U64> {
    match header
    case None => None
    case Some(text) => ParseU64(Trim(text))
  }

  /** A body that is not JSON is folded into the error shape, unless the status claimed success. */
  function ParseBody(parse: Parser, status: nat, text: string): Result<Json, ModelError> {
    match parse(text)
    case Some(body) => Ok(body)
    case None =>
      if !IsSuccess(status) then Ok(Obj(map["error" := Obj(map["message" := Str(text)])]))
      else Err(Unreadable(NotJson(status)))
  }

  /** What `post_json` makes of a response that arrived whole. */
  function PostJson(parse: Parser, status: nat, text: string, retryAfter: Option<string>): Result<Answer, ModelError> {
    var body :- ParseBody(parse, status, text);
    Ok(Answer(status, body, RetryAfterSeconds(retryAfter)))
  }

  /** The one classification the retry queue may rely on: which answers are worth another attempt. */
  ghost predicate WorthRetrying(status: nat) {
    status == 429 || (!IsSuccess(status) && !(400 <= status <= 499))
  }

  /** A delay written in decimal seconds, padded or not, arrives as that number of seconds. */
  lemma {:induction false} RetryHintRoundTrip(n: U64, before: string, after: string)
    requires IsBlank(before) && IsBlank(after)
    ensures RetryAfterSeconds(Some(before + Decimal(n) + after)) == Some(n)
  {
    ParseU64RoundTrip(n);
    DecimalReadsBack(n);
    PaddingIsTrimmed(before, Decimal(n), after);
  }
}
