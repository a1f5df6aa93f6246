/** The OpenAI-compatible client: reading an answer, and turning its token counts into the shared meaning
    (crates/dam-ai/src/openai_compatible.rs). */
module OpenAi {
  import opened Json
  import opened Model
  import opened Pricing
  import opened Text
  import opened Widths
  import opened Wrappers

  function SaturatingSub(a: U64, b: U64): U64 {
    if a >= b then a - b else 0
  }

  /** This format's prompt count includes its cached part; `Usage` counts them apart. */
  function Normalise(prompt: U64, completion: U64, cached: U64): Usage {
    Usage(SaturatingSub(prompt, cached), completion, cached, 0)
  }

  function Count(body: Json, tokens: seq<string>): U64 {
    CountOr0(Pointer(body, tokens))
  }

  function UsageOf(body: Json): Usage {
    Normalise(Count(body, ["usage", "prompt_tokens"]), Count(body, ["usage", "completion_tokens"]),
              Count(body, ["usage", "prompt_tokens_details", "cached_tokens"]))
  }

  function Decode(parse: Parser, model: string, schemaAsked: bool, body: Json): Result<Completion, ModelError> {
    match Pointer(body, ["choices", "0"])
    case None => Err(Unreadable(NoChoices))
    case Some(choice) =>
      var refusal := AsStr(Pointer(choice, ["message", "refusal"]));
      if refusal.Some? then Err(Declined(refusal))
      else if AsStr(Get(choice, "finish_reason")) == Some("content_filter") then Err(Declined(None))
      else match AsStr(Pointer(choice, ["message", "content"]))
        case None => Err(Unreadable(NoMessageContent))
        case Some(text) =>
          var structured := if schemaAsked then parse(Trim(text)) else None;
          if schemaAsked && structured.None? then Err(Unreadable(NotTheSchemaJson))
          else Ok(Completion(text, structured, AsStr(Get(body, "model")).GetOr(model), UsageOf(body)))
  }

  function Receive(parse: Parser, model: string, schemaAsked: bool, answer: Result<Answer, ModelError>)
    : Result<Completion, ModelError>
  {
    var answer :- answer;
    if !IsSuccess(answer.status) then Err(StatusError(answer.status, answer.body, answer.retryAfter))
    else Decode(parse, model, schemaAsked, answer.body)
  }

  // ---------- the counts mean one thing ----------

  /** No token is lost or counted twice: fresh and cached input add up to the prompt as reported, or to the cached
      count where a provider reports more cached than prompt. */
  lemma {:induction false} NormalisationConserves(prompt: U64, completion: U64, cached: U64)
    ensures var u := Normalise(prompt, completion, cached);
            && u.inputTokens + u.cachedInputTokens == (if cached <= prompt then prompt else cached)
            && (u.inputTokens + u.cachedInputTokens == prompt <==> cached <= prompt)
            && u.outputTokens == completion && u.cachedInputTokens == cached && u.cacheWriteTokens == 0
  {
  }

  /** At a published price, caching never makes a call dearer: the normalised usage costs at most what the whole
      prompt would have cost fresh, whenever the cached part is a part of the prompt. */
  lemma {:induction false} CachingNeverCostsMore(input: real, output: real, prompt: U64, completion: U64, cached: U64)
    requires input >= 0.0 && output >= 0.0 && cached <= prompt
    ensures var price := PerMtokDollars(input, output);
            Cost(price, Normalise(prompt, completion, cached)) <= Cost(price, Usage(prompt, completion, 0, 0))
  {
    PublishedPriceShape(input, output);
    CachedPartIsCheaper(PerMtokDollars(input, output), prompt, completion, cached);
  }

  lemma {:induction false} CachedPartIsCheaper(price: Price, prompt: U64, completion: U64, cached: U64)
    requires price.NonNegative() && price.cachedInput <= price.input && cached <= prompt
    ensures Cost(price, Normalise(prompt, completion, cached)) <= Cost(price, Usage(prompt, completion, 0, 0))
  {
    var uncached: U64 := prompt - cached;
    RateCostMonotone(cached, cached, price.cachedInput, price.input);
    RateCostAdds(uncached, cached, price.input);
    TotalOfNormalised(price, prompt, completion, cached);
    CostBounds(price, Usage(prompt, completion, 0, 0));
    CostBounds(price, Normalise(prompt, completion, cached));
  }

  lemma {:induction false} TotalOfNormalised(price: Price, prompt: U64, completion: U64, cached: U64)
    ensures Total(price, Normalise(prompt, completion, cached))
            == RateCost(SaturatingSub(prompt, cached), price.input) + RateCost(completion, price.output)
               + RateCost(cached, price.cachedInput)
    ensures Total(price, Usage(prompt, completion, 0, 0))
            == RateCost(prompt, price.input) + RateCost(completion, price.output)
  {
    assert RateCost(0, price.cacheWrite) == 0 && RateCost(0, price.cachedInput) == 0;
  }

  /** A provider that reports more cached than prompt tokens is charged for them all. Then, at any price, the call
      costs no more than its prompt would have cost fresh exactly when the cached tokens at their rate cost no more
      than the prompt at its, or when the fresh price is itself out of range. */
  lemma {:induction false} OverreportedCacheIsCheaperIff(price: Price, prompt: U64, completion: U64, cached: U64)
    requires price.NonNegative() && cached > prompt
    ensures Cost(price, Normalise(prompt, completion, cached)) <= Cost(price, Usage(prompt, completion, 0, 0))
            <==> RateCost(cached, price.cachedInput) <= RateCost(prompt, price.input)
                 || RateCost(prompt, price.input) + RateCost(completion, price.output) >= I64_MAX
  {
    TotalOfNormalised(price, prompt, completion, cached);
    CostBounds(price, Normalise(prompt, completion, cached));
    CostBounds(price, Usage(prompt, completion, 0, 0));
    assert RateCost(0, price.input) == 0;
  }
}
