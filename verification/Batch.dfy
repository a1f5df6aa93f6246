/** The Batch API: submission, polling, and the JSONL results file (crates/dam-ai/src/batch.rs). */
module Batch {
  import opened Anthropic
  import opened Json
  import opened Model
  import opened Pricing
  import opened Text
  import opened Widths
  import opened Wrappers
  import Recorded

  const MAX_REQUESTS: nat := 100_000

  datatype BatchItem = BatchItem(customId: string, ask: Ask)

  datatype BatchState = InProgress | Cancelling | Ended

  datatype BatchStatus = BatchStatus(
    id: string, state: BatchState, succeeded: U64, errored: U64, canceled: U64, expired: U64, processing: U64)

  datatype BatchOutcome =
    | Answered(completion: Completion)
    | Declined(why: Option<string>)
    | Errored(words: string)
    | Expired
    | Canceled

  datatype BatchResult = BatchResult(customId: string, outcome: BatchOutcome)

  // ---------- submitting ----------

  ghost function Request(model: string, item: BatchItem): Json {
    Obj(map["custom_id" := Str(item.customId), "params" := ParamsOf(model, item.ask)])
  }

  ghost function Body(model: string, items: seq<BatchItem>): Json {
    Obj(map["requests" := Arr(seq(|items|, i requires 0 <= i < |items| => Request(model, items[i])))])
  }

  method BuildBody(model: string, items: seq<BatchItem>) returns (body: Json)
    ensures body == Body(model, items)
  {
    var requests: seq<Json> := [];
    for i := 0 to |items|
      invariant |requests| == i
      invariant forall k :: 0 <= k < i ==> requests[k] == Request(model, items[k])
    {
      var params := MessageParams(model, items[i].ask);
      requests := requests + [Obj(map["custom_id" := Str(items[i].customId), "params" := params])];
    }
    body := Obj(map["requests" := Arr(requests)]);
    assert requests == Body(model, items).fields["requests"].items;
  }

  /** A submission body names the model and carries every item, in order, under its own id, so two submissions
      with one body are one submission. */
  lemma {:induction false} BodyDeterminesTheItems(model: string, items: seq<BatchItem>, otherModel: string,
      others: seq<BatchItem>)
    requires Body(model, items) == Body(otherModel, others)
    ensures items == others && (items != [] ==> model == otherModel)
  {
    assert Body(model, items).fields["requests"] == Body(otherModel, others).fields["requests"];
    var requests := Body(model, items).fields["requests"].items;
    var other := Body(otherModel, others).fields["requests"].items;
    assert |requests| == |items| && |other| == |others|;
    forall i | 0 <= i < |items|
      ensures items[i] == others[i] && model == otherModel
    {
      assert requests[i] == Request(model, items[i]) && other[i] == Request(otherModel, others[i]);
      assert requests[i].fields["custom_id"] == other[i].fields["custom_id"];
      assert requests[i].fields["params"] == other[i].fields["params"];
      ParamsDetermineTheAsk(model, items[i].ask, otherModel, others[i].ask);
    }
    if items != [] {
      assert items[0] == others[0];
    }
  }

  function ReadBatchId(answer: Result<Answer, ModelError>): Result<string, ModelError> {
    var answer :- answer;
    if !IsSuccess(answer.status) then Err(StatusError(answer.status, answer.body, answer.retryAfter))
    else match AsStr(Get(answer.body, "id"))
      case Some(id) => Ok(id)
      case None => Err(Unreadable(NoBatchId))
  }

  function RefuseSize(size: nat): Option<ModelError> {
    if size == 0 then Some(Unreadable(EmptyBatch))
    else if size > MAX_REQUESTS then Some(Unreadable(BatchTooLarge(size)))
    else None
  }

  /** A batch of the wrong size never reaches the provider; any other is sent exactly once. */
  method Submit(transport: Recorded.Transport, url: string, headers: Recorded.Headers, model: string,
                items: seq<BatchItem>)
    returns (result: Result<string, ModelError>)
    requires transport.Valid()
    modifies transport
    ensures transport.Valid()
    ensures RefuseSize(|items|).Some?
            ==> result == Err(RefuseSize(|items|).value) && transport.sent == old(transport.sent)
    ensures RefuseSize(|items|).None?
            ==> && transport.sent == old(transport.sent) + [Recorded.Sent(url, headers, Body(model, items))]
                && result == ReadBatchId(Recorded.PostAnswer(Recorded.ReplyAt(transport.script, |old(transport.sent)|)))
  {
    if RefuseSize(|items|).Some? {
      return Err(RefuseSize(|items|).value);
    }
    var body := BuildBody(model, items);
    var answer := transport.PostJson(url, headers, body);
    result := ReadBatchId(answer);
  }

  // ---------- polling ----------

  function StateNamed(name: Option<string>): BatchState {
    if name == Some("ended") then Ended
    else if name == Some("canceling") || name == Some("cancelling") then Cancelling
    else InProgress
  }

  function RequestCount(body: Json, name: string): U64 {
    CountOr0(Pointer(body, ["request_counts", name]))
  }

  function ReadStatus(parse: Parser, batchId: string, status: nat, text: string): Result<BatchStatus, ModelError> {
    match parse(text)
    case None => Err(Transient(NotJson(status)))
    case Some(body) =>
      if !IsSuccess(status) then Err(StatusError(status, body, None))
      else Ok(BatchStatus(
        AsStr(Get(body, "id")).GetOr(batchId), StateNamed(AsStr(Get(body, "processing_status"))),
        RequestCount(body, "succeeded"), RequestCount(body, "errored"), RequestCount(body, "canceled"),
        RequestCount(body, "expired"), RequestCount(body, "processing")))
  }

  // ---------- results ----------

  function Count(message: Json, name: string): U64 {
    CountOr0(Pointer(message, ["usage", name]))
  }

  function UsageOf(message: Json): Usage {
    Usage(Count(message, "input_tokens"), Count(message, "output_tokens"),
          Count(message, "cache_read_input_tokens"), Count(message, "cache_creation_input_tokens"))
  }

  /** A completion from a batch's message object. No content is empty text, and JSON is read whenever it is there. */
  function CompletionOf(parse: Parser, message: Json): Completion {
    var text := match AsArray(Get(message, "content")) { case Some(blocks) => TextOf(blocks) case None => "" };
    Completion(text, parse(Trim(text)), AsStr(Get(message, "model")).GetOr("unknown"), UsageOf(message))
  }

  function OutcomeOfMessage(parse: Parser, message: Json): BatchOutcome {
    if AsStr(Get(message, "stop_reason")) == Some("refusal")
    then BatchOutcome.Declined(AsStr(Pointer(message, ["stop_details", "explanation"])))
    else Answered(CompletionOf(parse, message))
  }

  function FailureWords(result: Json): string {
    match Pointer(result, ["error", "error", "message"])
    case Some(words) => AsStr(Some(words)).GetOr("no reason given")
    case None => AsStr(Pointer(result, ["error", "message"])).GetOr("no reason given")
  }

  function ReadOutcome(parse: Parser, customId: string, result: Option<Json>): Result<BatchOutcome, ModelError> {
    var kind := match result { case Some(r) => AsStr(Get(r, "type")).GetOr("errored") case None => "errored" };
    if kind == "succeeded" then
      match (match result { case Some(r) => Get(r, "message") case None => None })
      case None => Err(Unreadable(NoMessage(customId)))
      case Some(message) => Ok(OutcomeOfMessage(parse, message))
    else if kind == "errored" then
      Ok(Errored(match result { case Some(r) => FailureWords(r) case None => "no reason given" }))
    else if kind == "expired" then Ok(Expired)
    else if kind == "canceled" || kind == "cancelled" then Ok(Canceled)
    else Err(Unreadable(UnknownResultType(customId, kind)))
  }

  function ReadLine(parse: Parser, value: Json): Result<BatchResult, ModelError> {
    match AsStr(Get(value, "custom_id"))
    case None => Err(Unreadable(NoCustomId))
    case Some(customId) =>
      var outcome :- ReadOutcome(parse, customId, Get(value, "result"));
      Ok(BatchResult(customId, outcome))
  }

  /** One line of the file, numbered from one. */
  function ReadNumbered(parse: Parser, line: string, number: nat): Result<BatchResult, ModelError> {
    match parse(line)
    case None => Err(Unreadable(LineNotJson(number)))
    case Some(value) => ReadLine(parse, value)
  }

  ghost function ReadLines(parse: Parser, lines: seq<string>, before: nat): Result<seq<BatchResult>, ModelError> {
    if lines == [] then Ok([])
    else if IsBlank(lines[0]) then ReadLines(parse, lines[1..], before + 1)
    else
      var first :- ReadNumbered(parse, lines[0], before + 1);
      var rest :- ReadLines(parse, lines[1..], before + 1);
      Ok([first] + rest)
  }

  ghost function ReadResults(parse: Parser, status: nat, text: string): Result<seq<BatchResult>, ModelError> {
    if IsSuccess(status) then ReadLines(parse, Lines(text), 0)
    else Err(StatusError(status, parse(text).GetOr(Obj(map["error" := Obj(map["message" := Str(text)])])), None))
  }

  ghost function After(results: seq<BatchResult>, rest: Result<seq<BatchResult>, ModelError>)
    : Result<seq<BatchResult>, ModelError>
  {
    match rest
    case Ok(more) => Ok(results + more)
    case Err(error) => Err(error)
  }

  method Results(parse: Parser, status: nat, text: string) returns (result: Result<seq<BatchResult>, ModelError>)
    ensures result == ReadResults(parse, status, text)
  {
    if !IsSuccess(status) {
      var body := parse(text).GetOr(Obj(map["error" := Obj(map["message" := Str(text)])]));
      return Err(StatusError(status, body, None));
    }
    var results: seq<BatchResult> := [];
    var lines := Lines(text);
    assert lines[0..] == lines;
    assert forall rest: seq<BatchResult> :: [] + rest == rest;
    for i := 0 to |lines|
      invariant ReadResults(parse, status, text) == After(results, ReadLines(parse, lines[i..], i))
    {
      assert lines[i..][0] == lines[i] && lines[i..][1..] == lines[i + 1..];
      if IsBlank(lines[i]) {
        continue;
      }
      var read := ReadNumbered(parse, lines[i], i + 1);
      if read.Err? {
        return Err(read.error);
      }
      ghost var rest := ReadLines(parse, lines[i + 1..], i + 1);
      assert rest.Ok? ==> results + ([read.value] + rest.value) == (results + [read.value]) + rest.value;
      results := results + [read.value];
    }
    assert lines[|lines|..] == [] && results + [] == results;
    result := Ok(results);
  }

  // ---------- nothing is dropped ----------

  ghost predicate Readable(parse: Parser, line: string) {
    ReadNumbered(parse, line, 1).Ok?
  }

  /** All or nothing: the call succeeds exactly when every line that is not blank can be read, and then there is
      one result for each of them, in the file's order. */
  lemma {:induction false} EveryLineOrNone(parse: Parser, lines: seq<string>, before: nat)
    ensures ReadLines(parse, lines, before).Ok? <==> forall line :: line in NonBlank(lines) ==> Readable(parse, line)
    ensures ReadLines(parse, lines, before).Ok?
            ==> && |ReadLines(parse, lines, before).value| == |NonBlank(lines)|
                && forall k :: 0 <= k < |NonBlank(lines)| ==>
                     ReadNumbered(parse, NonBlank(lines)[k], 1) == Ok(ReadLines(parse, lines, before).value[k])
  {
    if lines != [] {
      EveryLineOrNone(parse, lines[1..], before + 1);
      var rest := NonBlank(lines[1..]);
      if !IsBlank(lines[0]) {
        assert NonBlank(lines) == [lines[0]] + rest;
        assert ReadNumbered(parse, lines[0], before + 1).Ok?
               ==> ReadNumbered(parse, lines[0], 1) == ReadNumbered(parse, lines[0], before + 1);
        assert Readable(parse, lines[0]) <==> ReadNumbered(parse, lines[0], before + 1).Ok?;
        assert forall line :: line in NonBlank(lines) <==> line == lines[0] || line in rest;
      } else {
        assert NonBlank(lines) == rest;
      }
    }
  }

  // ---------- writing a results file, and reading it back ----------

  function UsageObject(usage: Usage): Json {
    Obj(map[
      "input_tokens" := Int(usage.inputTokens),
      "output_tokens" := Int(usage.outputTokens),
      "cache_read_input_tokens" := Int(usage.cachedInputTokens),
      "cache_creation_input_tokens" := Int(usage.cacheWriteTokens)
    ])
  }

  function AnsweredMessage(completion: Completion): Json {
    Obj(map[
      "model" := Str(completion.model),
      "content" := Arr([Obj(map["type" := Str("text"), "text" := Str(completion.text)])]),
      "stop_reason" := Str("end_turn"),
      "usage" := UsageObject(completion.usage)
    ])
  }

  function RefusalMessage(why: Option<string>): Json {
    match why
    case None => Obj(map["stop_reason" := Str("refusal")])
    case Some(words) => Obj(map["stop_reason" := Str("refusal"),
                                "stop_details" := Obj(map["explanation" := Str(words)])])
  }

  function OutcomeObject(outcome: BatchOutcome): Json {
    match outcome
    case Answered(completion) => Obj(map["type" := Str("succeeded"), "message" := AnsweredMessage(completion)])
    case Declined(why) => Obj(map["type" := Str("succeeded"), "message" := RefusalMessage(why)])
    case Errored(words) => Obj(map["type" := Str("errored"),
                                   "error" := Obj(map["error" := Obj(map["message" := Str(words)])])])
    case Expired => Obj(map["type" := Str("expired")])
    case Canceled => Obj(map["type" := Str("canceled")])
  }

  function ResultObject(result: BatchResult): Json {
    Obj(map["custom_id" := Str(result.customId), "result" := OutcomeObject(result.outcome)])
  }

  /** A completion says of its own text whether it is JSON. */
  ghost predicate WellFormed(parse: Parser, outcome: BatchOutcome) {
    outcome.Answered? ==> outcome.completion.structured == parse(Trim(outcome.completion.text))
  }

  lemma {:induction false} NamesAreNotIndices()
    ensures !IsIndex("usage") && !IsIndex("input_tokens") && !IsIndex("output_tokens")
    ensures !IsIndex("cache_read_input_tokens") && !IsIndex("cache_creation_input_tokens")
    ensures !IsIndex("stop_details") && !IsIndex("explanation") && !IsIndex("category")
    ensures !IsIndex("error") && !IsIndex("message")
  {
    assert !IsDigit("usage"[0]) && !IsDigit("input_tokens"[0]) && !IsDigit("output_tokens"[0]);
    assert !IsDigit("cache_read_input_tokens"[0]) && !IsDigit("cache_creation_input_tokens"[0]);
    assert !IsDigit("stop_details"[0]) && !IsDigit("explanation"[0]) && !IsDigit("category"[0]);
    assert !IsDigit("error"[0]) && !IsDigit("message"[0]);
  }

  lemma {:induction false} CountByKey(message: Json, name: string)
    requires !IsIndex(name)
    ensures Count(message, name) == match Get(message, "usage") {
                                      case None => 0
                                      case Some(usage) => CountOr0(Get(usage, name))
                                    }
  {
    NamesAreNotIndices();
    PointerOfKeys(message, "usage", name);
  }

  lemma {:induction false} UsageRoundTrip(message: Json, usage: Usage)
    requires Get(message, "usage") == Some(UsageObject(usage))
    ensures UsageOf(message) == usage
  {
    NamesAreNotIndices();
    CountByKey(message, "input_tokens");
    CountByKey(message, "output_tokens");
    CountByKey(message, "cache_read_input_tokens");
    CountByKey(message, "cache_creation_input_tokens");
    assert |"cache_creation_input_tokens"| == 27 && |"cache_read_input_tokens"| == 23;
    assert |"input_tokens"| == 12 && |"output_tokens"| == 13;
  }

  lemma {:induction false} TextRoundTrip(text: string)
    ensures TextOf([Obj(map["type" := Str("text"), "text" := Str(text)])]) == text
  {
    var block := Obj(map["type" := Str("text"), "text" := Str(text)]);
    assert [block][1..] == [];
    assert AsStr(Get(block, "type")) == Some("text") && AsStr(Get(block, "text")) == Some(text);
    assert text + "" == text;
  }

  lemma {:induction false} CompletionRoundTrip(parse: Parser, completion: Completion)
    requires completion.structured == parse(Trim(completion.text))
    ensures OutcomeOfMessage(parse, AnsweredMessage(completion)) == Answered(completion)
  {
    var message := AnsweredMessage(completion);
    assert Get(message, "usage") == Some(UsageObject(completion.usage));
    assert AsStr(Get(message, "model")) == Some(completion.model);
    assert AsStr(Get(message, "stop_reason")) == Some("end_turn");
    assert "end_turn"[0] != "refusal"[0];
    UsageRoundTrip(message, completion.usage);
    TextRoundTrip(completion.text);
  }

  lemma {:induction false} RefusalRoundTrip(parse: Parser, why: Option<string>)
    ensures OutcomeOfMessage(parse, RefusalMessage(why)) == BatchOutcome.Declined(why)
  {
    NamesAreNotIndices();
    PointerOfKeys(RefusalMessage(why), "stop_details", "explanation");
  }

  lemma {:induction false} FailureRoundTrip(words: string)
    ensures FailureWords(OutcomeObject(Errored(words))) == words
  {
    NamesAreNotIndices();
    var result := OutcomeObject(Errored(words));
    assert ["error", "error", "message"][1..] == ["error", "message"];
    assert Child(result, "error") == Some(result.fields["error"]);
    PointerOfKeys(result.fields["error"], "error", "message");
  }

  /** Every outcome survives being written as a result object. */
  lemma {:induction false} LineRoundTrip(parse: Parser, result: BatchResult)
    requires WellFormed(parse, result.outcome)
    ensures ReadLine(parse, ResultObject(result)) == Ok(result)
  {
    assert "errored"[0] != "succeeded"[0] && "expired"[1] != "errored"[1] && "canceled"[0] != "errored"[0];
    match result.outcome
    case Answered(completion) => CompletionRoundTrip(parse, completion);
    case Declined(why) => RefusalRoundTrip(parse, why);
    case Errored(words) => FailureRoundTrip(words);
    case Expired =>
    case Canceled =>
  }

  lemma {:induction false} NumberedRoundTrip(parse: Parser, line: string, result: BatchResult)
    requires WellFormed(parse, result.outcome) && parse(line) == Some(ResultObject(result))
    ensures ReadNumbered(parse, line, 1) == Ok(result) && Readable(parse, line)
  {
    LineRoundTrip(parse, result);
  }

  lemma {:induction false} LinesThatRead(parse: Parser, lines: seq<string>, results: seq<BatchResult>)
    requires |NonBlank(lines)| == |results|
    requires forall k :: 0 <= k < |results| ==>
               Readable(parse, NonBlank(lines)[k]) && ReadNumbered(parse, NonBlank(lines)[k], 1) == Ok(results[k])
    ensures ReadLines(parse, lines, 0) == Ok(results)
  {
    EveryLineOrNone(parse, lines, 0);
    forall line | line in NonBlank(lines)
      ensures Readable(parse, line)
    {
      var k :| 0 <= k < |results| && NonBlank(lines)[k] == line;
    }
    var read := ReadLines(parse, lines, 0).value;
    forall k | 0 <= k < |results|
      ensures read[k] == results[k]
    {
      assert Ok(read[k]) == ReadNumbered(parse, NonBlank(lines)[k], 1)
             == Result<BatchResult, ModelError>.Ok(results[k]);
    }
    assert read == results;
  }

  /** A results file written one object to a line, with blank lines anywhere between, reads back as exactly those
      outcomes, in order, under their own ids. */
  lemma {:induction false} ResultsRoundTrip(parse: Parser, status: nat, results: seq<BatchResult>, lines: seq<string>)
    requires IsSuccess(status)
    requires forall line :: line in lines ==> IsLine(line)
    requires |NonBlank(lines)| == |results|
    requires forall k :: 0 <= k < |results| ==>
               WellFormed(parse, results[k].outcome) && parse(NonBlank(lines)[k]) == Some(ResultObject(results[k]))
    ensures ReadResults(parse, status, WriteLines(lines)) == Ok(results)
  {
    LinesRoundTrip(lines);
    forall k | 0 <= k < |results|
      ensures Readable(parse, NonBlank(lines)[k]) && ReadNumbered(parse, NonBlank(lines)[k], 1) == Ok(results[k])
    {
      NumberedRoundTrip(parse, NonBlank(lines)[k], results[k]);
    }
    LinesThatRead(parse, lines, results);
  }
}
