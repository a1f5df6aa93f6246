/** What holds across the clients: two decoders of one message, and one retry rule for every POST. */
module Clients {
  import opened Json
  import opened Model
  import opened Text
  import opened Wrappers
  import Anthropic
  import Batch
  import Enrich
  import OpenAi

  // ---------- one message, two paths ----------

  /** Asking now: the answer's body, decoded and read. */
  ghost function DescribeNow(parse: Parser, lower: Enrich.Lowering, brief: Enrich.Brief, model: string, ask: Ask,
                             message: Json)
    : Result<Enrich.Suggestion, ModelError>
  {
    var completion :- Anthropic.Decode(parse, model, ask.schema.Some?, message);
    Enrich.Suggest(lower, brief, completion)
  }

  /** Asking through a batch: the same message inside a results line, decoded and read. */
  ghost function DescribeBatched(parse: Parser, lower: Enrich.Lowering, brief: Enrich.Brief, message: Json)
    : Result<Enrich.Suggestion, ModelError>
  {
    match Batch.OutcomeOfMessage(parse, message)
    case Declined(why) => Err(ModelError.Declined(why))
    case Answered(completion) => Enrich.Suggest(lower, brief, completion)
    case _ => Err(Unreadable(NoContent))
  }

  ghost predicate NamesItsModel(message: Json) {
    AsStr(Get(message, "model")).Some?
  }

  ghost predicate ExplainsItself(message: Json) {
    AsStr(Pointer(message, ["stop_details", "explanation"])).Some?
  }

  ghost predicate CategorisesItself(message: Json) {
    AsStr(Pointer(message, ["stop_details", "category"])).Some?
  }

  lemma {:induction false} UsageAgrees(message: Json)
    ensures Batch.UsageOf(message) == Anthropic.UsageOf(message)
  {
    Batch.NamesAreNotIndices();
    Batch.CountByKey(message, "input_tokens");
    Batch.CountByKey(message, "output_tokens");
    Batch.CountByKey(message, "cache_read_input_tokens");
    Batch.CountByKey(message, "cache_creation_input_tokens");
  }

  lemma {:induction false} CompletionsAgree(parse: Parser, model: string, message: Json)
    requires !Anthropic.Refused(message)
    ensures Anthropic.Decode(parse, model, true, message).Ok? <==> Batch.CompletionOf(parse, message).structured.Some?
    ensures Anthropic.Decode(parse, model, true, message).Ok?
            ==> Batch.CompletionOf(parse, message)
                == Anthropic.Decode(parse, model, true, message).value
                   .(model := AsStr(Get(message, "model")).GetOr("unknown"))
    ensures Anthropic.Decode(parse, model, true, message).Ok?
            ==> Anthropic.Decode(parse, model, true, message).value.model == AsStr(Get(message, "model")).GetOr(model)
    ensures Anthropic.Decode(parse, model, true, message).Err?
            ==> Anthropic.Decode(parse, model, true, message).error.Unreadable?
  {
    UsageAgrees(message);
    assert Trim("") == "";
  }

  /** The model's name passes through a reading untouched and changes nothing else. */
  lemma {:induction false} ModelPassesThrough(lower: Enrich.Lowering, brief: Enrich.Brief, completion: Completion,
      model: string)
    ensures var one := Enrich.Suggest(lower, brief, completion);
            var other := Enrich.Suggest(lower, brief, completion.(model := model));
            && (one.Ok? <==> other.Ok?)
            && (one.Ok? ==> other.value == one.value.(model := model) && one.value.model == completion.model)
            && (one.Err? ==> one.error == other.error && one.error.Unreadable?)
  {
  }

  lemma {:induction false} AnswersAgree(
    parse: Parser, lower: Enrich.Lowering, brief: Enrich.Brief, model: string, ask: Ask, message: Json)
    requires ask.schema.Some? && !Anthropic.Refused(message)
    ensures var now := DescribeNow(parse, lower, brief, model, ask, message);
            var batched := DescribeBatched(parse, lower, brief, message);
            && (now.Ok? <==> batched.Ok?)
            && (now.Ok? ==> batched.value == now.value.(model := AsStr(Get(message, "model")).GetOr("unknown"))
                            && now.value.model == AsStr(Get(message, "model")).GetOr(model))
            && (now.Err? ==> now.error.Unreadable? && batched.error.Unreadable?)
  {
    CompletionsAgree(parse, model, message);
    var decoded := Anthropic.Decode(parse, model, true, message);
    if decoded.Ok? {
      ModelPassesThrough(lower, brief, decoded.value, AsStr(Get(message, "model")).GetOr("unknown"));
    }
  }

  /** The two paths read one message the same way, for every message and every question that asks for a schema,
      as enrichment always does. Both decline exactly the refusals, whatever else the message holds. Otherwise
      both give a suggestion or neither does; the suggestions differ at most in the model recorded, and are equal
      exactly when the message names its model or the client was configured as "unknown". A refusal carries the
      same reason on both paths exactly when it is explained or not categorised. */
  lemma {:induction false} DecodersAgree(
    parse: Parser, lower: Enrich.Lowering, brief: Enrich.Brief, model: string, ask: Ask, message: Json)
    requires ask.schema.Some?
    ensures var now := DescribeNow(parse, lower, brief, model, ask, message);
            var batched := DescribeBatched(parse, lower, brief, message);
            && (now.Ok? <==> batched.Ok?)
            && (now.Ok? ==> batched.value == now.value.(model := AsStr(Get(message, "model")).GetOr("unknown")))
            && (now.Ok? ==> (batched == now <==> NamesItsModel(message) || model == "unknown"))
            && (now.Err? ==> (now.error.Declined? <==> Anthropic.Refused(message)))
            && (now.Err? ==> (batched.error.Declined? <==> Anthropic.Refused(message)))
            && (Anthropic.Refused(message) ==> now.Err?)
            && (Anthropic.Refused(message)
                ==> (batched == now <==> ExplainsItself(message) || !CategorisesItself(message)))
  {
    if Anthropic.Refused(message) {
      assert DescribeNow(parse, lower, brief, model, ask, message)
             == Err(ModelError.Declined(Anthropic.RefusalReason(message)));
      assert DescribeBatched(parse, lower, brief, message)
          == Err(ModelError.Declined(AsStr(Pointer(message, ["stop_details", "explanation"]))));
    } else {
      AnswersAgree(parse, lower, brief, model, ask, message);
    }
  }

  /** Without a schema the paths part: the synchronous answer is never structured, so it can never be read, while
      the batched one is read whenever its text happens to be the right JSON. */
  lemma {:induction false} UnstructuredAsksDiffer(
    parse: Parser, lower: Enrich.Lowering, brief: Enrich.Brief, model: string, ask: Ask, message: Json)
    requires ask.schema.None? && !Anthropic.Refused(message)
    ensures DescribeNow(parse, lower, brief, model, ask, message).Err?
    ensures DescribeBatched(parse, lower, brief, message).Ok?
            <==> DescribeNow(parse, lower, brief, model, ask.(schema := Some(Enrich.Schema())), message).Ok?
  {
    AnswersAgree(parse, lower, brief, model, ask.(schema := Some(Enrich.Schema())), message);
  }

  // ---------- one retry rule ----------

  datatype Client = AnthropicClient | OpenAiClient | BatchClient

  /** The error a client ends with when it POSTs and this response arrives; none if it succeeds. */
  ghost function PostError(client: Client, parse: Parser, model: string, schemaAsked: bool,
                           status: nat, text: string, retryAfter: Option<string>): Option<ModelError> {
    var answer := PostJson(parse, status, text, retryAfter);
    match client
    case AnthropicClient => ErrorOf(Anthropic.Receive(parse, model, schemaAsked, answer))
    case OpenAiClient => ErrorOf(OpenAi.Receive(parse, model, schemaAsked, answer))
    case BatchClient => ErrorOf(Batch.ReadBatchId(answer))
  }

  ghost function ErrorOf<T>(r: Result<T, ModelError>): Option<ModelError> {
    match r case Ok(_) => None case Err(e) => Some(e)
  }

  /** Whichever client made the POST, and whatever the body says or whether it is JSON at all: an answer is worth
      another attempt exactly on a 429 or outside the 2xx and 4xx ranges, a 2xx never is, a non-2xx is always an
      error, and the provider's wait survives exactly on a 429. */
  lemma {:induction false} RetryRule(client: Client, parse: Parser, model: string, schemaAsked: bool,
                  status: nat, text: string, retryAfter: Option<string>)
    ensures var error := PostError(client, parse, model, schemaAsked, status, text, retryAfter);
            && (!IsSuccess(status) ==> error.Some?)
            && (error.Some? ==> (error.value.IsTransient() <==> WorthRetrying(status)))
            && (error.Some? && error.value.RateLimited? <==> status == 429)
            && (status == 429 ==> error.value.wait == RetryAfterSeconds(retryAfter))
            && (status in {401, 403} ==> error == Some(Unauthorised))
  {
    var answer := PostJson(parse, status, text, retryAfter);
    assert !IsSuccess(status) ==> answer.Ok? && answer.value.status == status;
  }

  /** The three clients cannot disagree about a failure: outside 2xx they end with the very same error. */
  lemma {:induction false} FailuresAreTheSame(one: Client, other: Client, parse: Parser, model: string,
      schemaAsked: bool,
                           status: nat, text: string, retryAfter: Option<string>)
    requires !IsSuccess(status)
    ensures PostError(one, parse, model, schemaAsked, status, text, retryAfter)
            == PostError(other, parse, model, schemaAsked, status, text, retryAfter)
  {
    var answer := PostJson(parse, status, text, retryAfter);
    assert answer.Ok? && answer.value.status == status;
  }

  /** Polling a batch is the exception. It follows the rule exactly when the answer is JSON or its status was worth
      retrying anyway: a page that is not JSON is retried even on a 401 or a 200. Its wait is always lost. */
  lemma {:induction false} PollRule(parse: Parser, batchId: string, status: nat, text: string)
    ensures var error := ErrorOf(Batch.ReadStatus(parse, batchId, status, text));
            && ((error.Some? && error.value.IsTransient() <==> WorthRetrying(status))
                <==> parse(text).Some? || WorthRetrying(status))
            && (error.Some? && error.value.RateLimited? ==> error.value.wait == None)
  {
  }
}
