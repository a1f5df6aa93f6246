/** What the clients hand back: which part of a provider's page becomes which part of a completion, an error or a
    status, and what a request says (crates/dam-ai/src). */
module AnswerLaws {
  import opened Json
  import opened Model
  import opened Pricing
  import opened Text
  import opened Widths
  import opened Wrappers
  import Anthropic
  import Batch
  import OpenAi

  // ---------- reading by name ----------

  /** A string under a key, or under a key of an object under a key. */
  ghost predicate SaysOf(body: Json, key: string, s: string) {
    body.Obj? && key in body.fields && body.fields[key] == Str(s)
  }

  ghost predicate SaysIn(body: Json, outer: string, key: string, s: string) {
    body.Obj? && outer in body.fields && SaysOf(body.fields[outer], key, s)
  }

  /** A count under a key, nought where there is no number of that width. */
  ghost predicate CountsOf(body: Json, key: string, n: U64) {
    if body.Obj? && key in body.fields && body.fields[key].Int? && 0 <= body.fields[key].i <= U64_MAX
    then n == body.fields[key].i else n == 0
  }

  ghost predicate CountsIn(body: Json, outer: string, key: string, n: U64) {
    if body.Obj? && outer in body.fields then CountsOf(body.fields[outer], key, n) else n == 0
  }

  lemma {:induction false} PointerSays(body: Json, outer: string, key: string)
    requires !IsIndex(outer) && !IsIndex(key)
    ensures forall s :: AsStr(Pointer(body, [outer, key])) == Some(s) <==> SaysIn(body, outer, key, s)
    ensures AsStr(Pointer(body, [outer, key])) == None <==> forall s :: !SaysIn(body, outer, key, s)
    ensures CountsIn(body, outer, key, CountOr0(Pointer(body, [outer, key])))
  {
    PointerOfKeys(body, outer, key);
    if AsStr(Pointer(body, [outer, key])).Some? {
      assert SaysIn(body, outer, key, AsStr(Pointer(body, [outer, key])).value);
    }
  }

  // ---------- the text of a message ----------

  ghost predicate IsTextBlock(block: Json, text: string) {
    SaysOf(block, "type", "text") && SaysOf(block, "text", text)
  }

  /** The text of a message is that of its text blocks, in order, with nothing between, and nothing of any other. */
  lemma {:induction false} TextIsInOrder(xs: seq<Json>, ys: seq<Json>, block: Json, text: string)
    ensures Anthropic.TextOf(xs + ys) == Anthropic.TextOf(xs) + Anthropic.TextOf(ys)
    ensures IsTextBlock(block, text) ==> Anthropic.TextOf([block]) == text
    ensures (forall other :: !IsTextBlock(block, other)) ==> Anthropic.TextOf([block]) == ""
  {
    OneBlock(block);
    if xs == [] {
      assert xs + ys == ys;
    } else {
      assert (xs + ys)[1..] == xs[1..] + ys;
      TextIsInOrder(xs[1..], ys, block, text);
    }
  }

  lemma {:induction false} OneBlock(block: Json)
    ensures forall text :: IsTextBlock(block, text) ==> Anthropic.TextOf([block]) == text
    ensures (forall text :: !IsTextBlock(block, text)) ==> Anthropic.TextOf([block]) == ""
  {
    assert [block][1..] == [];
    if SaysOf(block, "type", "text") && AsStr(Get(block, "text")).Some? {
      assert IsTextBlock(block, AsStr(Get(block, "text")).value);
    }
  }

  // ---------- the synchronous answer ----------

  ghost predicate IsRefusal(message: Json) {
    SaysOf(message, "stop_reason", "refusal")
  }

  /** Why a message was refused: the explanation if it is one in words, the category otherwise. */
  ghost predicate RefusedFor(message: Json, why: Option<string>) {
    match why
    case Some(s) => SaysIn(message, "stop_details", "explanation", s)
                    || ((forall e :: !SaysIn(message, "stop_details", "explanation", e))
                        && SaysIn(message, "stop_details", "category", s))
    case None => (forall s :: !SaysIn(message, "stop_details", "explanation", s))
                 && forall s :: !SaysIn(message, "stop_details", "category", s)
  }

  ghost predicate UsageIs(message: Json, usage: Usage) {
    && CountsIn(message, "usage", "input_tokens", usage.inputTokens)
    && CountsIn(message, "usage", "output_tokens", usage.outputTokens)
    && CountsIn(message, "usage", "cache_read_input_tokens", usage.cachedInputTokens)
    && CountsIn(message, "usage", "cache_creation_input_tokens", usage.cacheWriteTokens)
  }

  ghost predicate Names(body: Json, configured: string, model: string) {
    SaysOf(body, "model", model) || ((forall s :: !SaysOf(body, "model", s)) && model == configured)
  }

  /** The page of a successful answer, as the transport hands it over. */
  ghost predicate Arrived(parse: Parser, status: nat, page: string, body: Json) {
    IsSuccess(status) && parse(page) == Some(body)
  }

  lemma {:induction false} PageIsDecoded(parse: Parser, model: string, schemaAsked: bool, status: nat, page: string,
                                         retryAfter: Option<string>, body: Json)
    requires Arrived(parse, status, page, body)
    ensures var answer := PostJson(parse, status, page, retryAfter);
            && Anthropic.Receive(parse, model, schemaAsked, answer) == Anthropic.Decode(parse, model, schemaAsked, body)
            && OpenAi.Receive(parse, model, schemaAsked, answer) == OpenAi.Decode(parse, model, schemaAsked, body)
  {
    assert PostJson(parse, status, page, retryAfter).Ok?;
  }

  lemma {:induction false} RefusalIsRead(message: Json)
    ensures IsRefusal(message) <==> Anthropic.Refused(message)
    ensures RefusedFor(message, Anthropic.RefusalReason(message))
  {
    Batch.NamesAreNotIndices();
    PointerSays(message, "stop_details", "explanation");
    PointerSays(message, "stop_details", "category");
  }

  lemma {:induction false} ModelIsRead(body: Json, configured: string)
    ensures Names(body, configured, AsStr(Get(body, "model")).GetOr(configured))
  {
    if AsStr(Get(body, "model")).Some? {
      assert SaysOf(body, "model", AsStr(Get(body, "model")).value);
    }
  }

  lemma {:induction false} UsageIsRead(message: Json)
    ensures UsageIs(message, Anthropic.UsageOf(message))
  {
  }

  /** Asked now, a message becomes, in this order: a refusal, with its reason; an error, when it has no content or its
      text is not the JSON that was asked for; or its text, that text read as JSON if a schema was asked for, the
      model it names or else the one configured, and the four counts of its usage each in its own place. */
  lemma {:induction false} MessageIsReceived(parse: Parser, model: string, schemaAsked: bool, status: nat, page: string,
                                             retryAfter: Option<string>, message: Json)
    requires Arrived(parse, status, page, message)
    ensures var received := Anthropic.Receive(parse, model, schemaAsked, PostJson(parse, status, page, retryAfter));
            if IsRefusal(message) then
              received.Err? && received.error.Declined? && RefusedFor(message, received.error.why)
            else if !(message.Obj? && "content" in message.fields && message.fields["content"].Arr?) then
              received == Err(Unreadable(NoContent))
            else
              var text := Anthropic.TextOf(message.fields["content"].items);
              if schemaAsked && parse(Trim(text)).None? then received == Err(Unreadable(NotTheSchemaJson))
              else && received.Ok? && received.value.text == text
                   && received.value.structured == (if schemaAsked then parse(Trim(text)) else None)
                   && Names(message, model, received.value.model) && UsageIs(message, received.value.usage)
  {
    PageIsDecoded(parse, model, schemaAsked, status, page, retryAfter, message);
    RefusalIsRead(message);
    ModelIsRead(message, model);
    UsageIsRead(message);
  }

  // ---------- the OpenAI-compatible answer ----------

  ghost predicate HasChoice(body: Json, choice: Json) {
    && body.Obj? && "choices" in body.fields && body.fields["choices"].Arr?
    && body.fields["choices"].items != [] && choice == body.fields["choices"].items[0]
  }

  ghost predicate Reports(body: Json, prompt: U64, completion: U64, cached: U64) {
    && CountsIn(body, "usage", "prompt_tokens", prompt) && CountsIn(body, "usage", "completion_tokens", completion)
    && if body.Obj? && "usage" in body.fields
       then CountsIn(body.fields["usage"], "prompt_tokens_details", "cached_tokens", cached) else cached == 0
  }

  lemma {:induction false} KeysAreNotIndices()
    ensures !IsIndex("choices") && !IsIndex("prompt_tokens") && !IsIndex("completion_tokens") && !IsIndex("refusal")
    ensures !IsIndex("prompt_tokens_details") && !IsIndex("cached_tokens") && !IsIndex("content")
    ensures IsIndex("0") && NumberOf("0") == 0
  {
    assert !IsDigit("choices"[0]) && !IsDigit("prompt_tokens"[0]) && !IsDigit("completion_tokens"[0]);
    assert !IsDigit("prompt_tokens_details"[0]) && !IsDigit("cached_tokens"[0]) && !IsDigit("content"[0]);
    assert !IsDigit("refusal"[0]);
    assert "0"[..0] == "";
  }

  lemma {:induction false} FirstChoice(body: Json, choice: Json)
    requires HasChoice(body, choice)
    ensures Pointer(body, ["choices", "0"]) == Some(choice)
  {
    KeysAreNotIndices();
    var choices := body.fields["choices"];
    assert Child(body, "choices") == Some(choices);
    assert Pointer(choices, ["0"]) == Some(choice) by {
      assert Child(choices, "0") == Some(choice) && ["0"][1..] == [];
    }
    assert ["choices", "0"][1..] == ["0"];
  }

  lemma {:induction false} ReportIsRead(body: Json)
    ensures Reports(body, OpenAi.Count(body, ["usage", "prompt_tokens"]),
                    OpenAi.Count(body, ["usage", "completion_tokens"]),
                    OpenAi.Count(body, ["usage", "prompt_tokens_details", "cached_tokens"]))
  {
    KeysAreNotIndices();
    Batch.NamesAreNotIndices();
    PointerSays(body, "usage", "prompt_tokens");
    PointerSays(body, "usage", "completion_tokens");
    assert ["usage", "prompt_tokens_details", "cached_tokens"][1..] == ["prompt_tokens_details", "cached_tokens"];
    assert Child(body, "usage") == Get(body, "usage");
    if body.Obj? && "usage" in body.fields {
      PointerSays(body.fields["usage"], "prompt_tokens_details", "cached_tokens");
    }
  }

  /** Whatever a client of this family accepts, its usage counts each prompt token once: fresh and cached input make up
      the prompt as reported, or the cached count where that is larger; the cached and the completion counts are the
      reported ones, and nothing is written to a cache. */
  lemma {:induction false} AcceptedUsageIsNormalised(parse: Parser, model: string, schemaAsked: bool,
                                                     answer: Result<Answer, ModelError>, prompt: U64, completion: U64,
                                                     cached: U64)
    requires OpenAi.Receive(parse, model, schemaAsked, answer).Ok?
    requires Reports(answer.value.body, prompt, completion, cached)
    ensures var usage := OpenAi.Receive(parse, model, schemaAsked, answer).value.usage;
            && usage.inputTokens + usage.cachedInputTokens == (if cached <= prompt then prompt else cached)
            && usage.cachedInputTokens == cached && usage.outputTokens == completion && usage.cacheWriteTokens == 0
  {
    ReportIsRead(answer.value.body);
  }

  ghost predicate FilteredOut(choice: Json) {
    SaysOf(choice, "finish_reason", "content_filter")
  }

  /** A chat completion, with any further keys, becomes, in this order: the refusal a model wrote, in its words; the
      server's own, with none; an error, when it has no content or that is not the JSON that was asked for; or that
      content, read as JSON if a schema was asked for, and the model it names or else the one configured. */
  lemma {:induction false} ChatIsReceived(parse: Parser, model: string, schemaAsked: bool, status: nat, page: string,
                                          retryAfter: Option<string>, body: Json, choice: Json)
    requires Arrived(parse, status, page, body) && HasChoice(body, choice)
    ensures var received := OpenAi.Receive(parse, model, schemaAsked, PostJson(parse, status, page, retryAfter));
            && (forall words :: SaysIn(choice, "message", "refusal", words) ==> received == Err(Declined(Some(words))))
            && ((forall words :: !SaysIn(choice, "message", "refusal", words))
                ==> && (FilteredOut(choice) ==> received == Err(Declined(None)))
                    && (!FilteredOut(choice)
                        ==> && ((forall text :: !SaysIn(choice, "message", "content", text))
                                ==> received == Err(Unreadable(NoMessageContent)))
                            && (forall text :: SaysIn(choice, "message", "content", text)
                                               ==> ChatContent(parse, model, schemaAsked, body, text, received))))
  {
    PageIsDecoded(parse, model, schemaAsked, status, page, retryAfter, body);
    FirstChoice(body, choice);
    ChoiceIsRead(choice);
    ModelIsRead(body, model);
  }

  lemma {:induction false} ChoiceIsRead(choice: Json)
    ensures FilteredOut(choice) <==> AsStr(Get(choice, "finish_reason")) == Some("content_filter")
    ensures forall s :: AsStr(Pointer(choice, ["message", "refusal"])) == Some(s)
                        <==> SaysIn(choice, "message", "refusal", s)
    ensures forall s :: AsStr(Pointer(choice, ["message", "content"])) == Some(s)
                        <==> SaysIn(choice, "message", "content", s)
    ensures AsStr(Pointer(choice, ["message", "refusal"])) == None
            <==> forall s :: !SaysIn(choice, "message", "refusal", s)
    ensures AsStr(Pointer(choice, ["message", "content"])) == None
            <==> forall s :: !SaysIn(choice, "message", "content", s)
  {
    KeysAreNotIndices();
    Batch.NamesAreNotIndices();
    PointerSays(choice, "message", "refusal");
    PointerSays(choice, "message", "content");
  }

  ghost predicate ChatContent(parse: Parser, model: string, schemaAsked: bool, body: Json, text: string,
                              received: Result<Completion, ModelError>) {
    if schemaAsked && parse(Trim(text)).None? then received == Err(Unreadable(NotTheSchemaJson))
    else && received.Ok? && received.value.text == text && Names(body, model, received.value.model)
         && received.value.structured == (if schemaAsked then parse(Trim(text)) else None)
  }

  lemma {:induction false} NoChoiceIsUnreadable(parse: Parser, model: string, schemaAsked: bool, status: nat,
                                                page: string,
                                                retryAfter: Option<string>, body: Json)
    requires Arrived(parse, status, page, body) && body.Obj? && "choices" !in body.fields
    ensures OpenAi.Receive(parse, model, schemaAsked, PostJson(parse, status, page, retryAfter))
            == Err(Unreadable(NoChoices))
  {
    KeysAreNotIndices();
  }

  /** One call, reported by each vendor in its own terms and accepted by each one's client, is billed as one usage. */
  lemma {:induction false} VendorsAreBilledAlike(
    parse: Parser, model: string, schemaAsked: bool, answer: Result<Answer, ModelError>,
    otherParse: Parser, otherModel: string, otherSchemaAsked: bool, other: Result<Answer, ModelError>,
    prompt: U64, completion: U64, cached: U64)
    requires Anthropic.Receive(parse, model, schemaAsked, answer).Ok? && cached <= prompt
    requires OpenAi.Receive(otherParse, otherModel, otherSchemaAsked, other).Ok?
    requires UsageIs(answer.value.body, Usage(prompt - cached, completion, cached, 0))
    requires Reports(other.value.body, prompt, completion, cached)
    ensures Anthropic.Receive(parse, model, schemaAsked, answer).value.usage
            == OpenAi.Receive(otherParse, otherModel, otherSchemaAsked, other).value.usage
  {
    AcceptedUsageIsNormalised(otherParse, otherModel, otherSchemaAsked, other, prompt, completion, cached);
  }
}
