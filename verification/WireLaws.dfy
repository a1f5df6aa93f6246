/** What a request says to whoever reads it, what a batch's pages are read as, and which words an error carries
    (crates/dam-ai/src). */
module WireLaws {
  import opened AnswerLaws
  import opened Json
  import opened Model
  import opened Text
  import opened Wrappers
  import Anthropic
  import Batch
  import Clients
  import Enrich
  import Recorded

  // ---------- requests ----------

  /** The words of a question, its images left out. */
  ghost function TextParts(parts: seq<Part>): string {
    if parts == [] then "" else (if parts[0].Text? then parts[0].text else "") + TextParts(parts[1..])
  }

  ghost predicate IsImageBlock(block: Json, mediaType: string, base64: string) {
    && SaysOf(block, "type", "image") && SaysIn(block, "source", "type", "base64")
    && SaysIn(block, "source", "media_type", mediaType) && SaysIn(block, "source", "data", base64)
  }

  lemma {:induction false} PartIsSaid(part: Part)
    ensures match part
            case Text(text) => IsTextBlock(Anthropic.PartBlock(part), text)
            case Image(mediaType, base64) =>
              IsImageBlock(Anthropic.PartBlock(part), mediaType, base64)
              && forall text :: !IsTextBlock(Anthropic.PartBlock(part), text)
  {
    if part.Image? {
      var block := Anthropic.PartBlock(part);
      assert |"type"| == 4 && |"source"| == 6 && |"data"| == 4 && |"media_type"| == 10 && "type"[0] != "data"[0];
      assert block.fields["type"] == Str("image") && "image"[0] != "text"[0];
    }
  }

  lemma {:induction false} PartsAreSaid(parts: seq<Part>)
    ensures Anthropic.TextOf(Anthropic.Content(parts)) == TextParts(parts)
  {
    if parts != [] {
      var block := Anthropic.PartBlock(parts[0]);
      PartIsSaid(parts[0]);
      OneBlock(block);
      TextIsInOrder([block], Anthropic.Content(parts[1..]), block, "");
      assert Anthropic.Content(parts) == [block] + Anthropic.Content(parts[1..]);
      PartsAreSaid(parts[1..]);
    }
  }

  ghost predicate HoldsAt(value: Json, key: string, held: Json) {
    value.Obj? && key in value.fields && value.fields[key] == held
  }

  /** The marker after which a prompt is no longer cached. */
  ghost predicate EndsTheCachedPrefix(block: Json) {
    HoldsAt(block, "cache_control", Obj(map["type" := Str("ephemeral")]))
  }

  lemma {:induction false} SystemSays(model: string, ask: Ask)
    ensures exists block :: HoldsAt(Anthropic.ParamsOf(model, ask), "system", Arr([block]))
                            && EndsTheCachedPrefix(block) && IsTextBlock(block, ask.instructions)
  {
    var params := Anthropic.ParamsOf(model, ask);
    assert |"type"| == 4 && |"text"| == 4 && "type"[1] != "text"[1] && |"cache_control"| == 13;
    var block := params.fields["system"].items[0];
    assert HoldsAt(params, "system", Arr([block])) && EndsTheCachedPrefix(block)
           && IsTextBlock(block, ask.instructions);
  }

  lemma {:induction false} MessagesSay(model: string, ask: Ask)
    ensures exists message, content ::
              && HoldsAt(Anthropic.ParamsOf(model, ask), "messages", Arr([message])) && SaysOf(message, "role", "user")
              && HoldsAt(message, "content", Arr(content)) && ContentSays(content, ask.parts)
  {
    var params := Anthropic.ParamsOf(model, ask);
    var message := params.fields["messages"].items[0];
    var content := Anthropic.Content(ask.parts);
    assert HoldsAt(params, "messages", Arr([message])) && SaysOf(message, "role", "user");
    assert HoldsAt(message, "content", Arr(content));
    PartsAreSaid(ask.parts);
    forall i | 0 <= i < |ask.parts| && ask.parts[i].Image?
      ensures IsImageBlock(content[i], ask.parts[i].mediaType, ask.parts[i].base64)
    {
      PartIsSaid(ask.parts[i]);
    }
  }

  /** A request, read as a message is read: it names the model, bounds the answer, says the instructions as the cached
      prefix and the words of the question after it, in order, and an image wherever the question has one. */
  lemma {:induction false} RequestSaysTheAsk(model: string, ask: Ask)
    ensures var params := Anthropic.ParamsOf(model, ask);
            && SaysOf(params, "model", model) && HoldsAt(params, "max_tokens", Int(ask.maxTokens))
            && (exists block :: HoldsAt(params, "system", Arr([block])) && EndsTheCachedPrefix(block)
                                && IsTextBlock(block, ask.instructions))
            && (exists message, content :: HoldsAt(params, "messages", Arr([message]))
                                           && SaysOf(message, "role", "user")
                                           && HoldsAt(message, "content", Arr(content))
                                           && ContentSays(content, ask.parts))
  {
    SystemSays(model, ask);
    MessagesSay(model, ask);
    assert |"model"| == 5 && |"max_tokens"| == 10 && |"system"| == 6 && |"messages"| == 8 && |"output_config"| == 13;
  }

  /** It asks for the effort by name, and, where there is a schema, for an answer in that schema. */
  lemma {:induction false} RequestAsksForTheSchema(model: string, ask: Ask)
    ensures exists config :: HoldsAt(Anthropic.ParamsOf(model, ask), "output_config", config)
                             && SaysOf(config, "effort", match ask.effort case Low => "low" case Medium => "medium"
                                                                          case High => "high")
                             && AsksFor(config, ask.schema)
  {
    var config := Anthropic.OutputConfig(ask);
    assert |"effort"| == 6 == |"format"| && "effort"[0] != "format"[0] && |"output_config"| == 13;
    assert |"type"| == 4 && |"schema"| == 6;
    assert HoldsAt(Anthropic.ParamsOf(model, ask), "output_config", config);
    assert SaysOf(config, "effort", Anthropic.EffortName(ask.effort));
    assert AsksFor(config, ask.schema) by {
      if ask.schema.Some? {
        var format := config.fields["format"];
        assert SaysOf(format, "type", "json_schema") && HoldsAt(format, "schema", ask.schema.value);
      }
    }
  }

  ghost predicate AsksFor(config: Json, schema: Option<Json>) {
    match schema
    case None => config.Obj? && "format" !in config.fields
    case Some(shape) => exists format :: HoldsAt(config, "format", format) && SaysOf(format, "type", "json_schema")
                                         && HoldsAt(format, "schema", shape)
  }

  ghost predicate ContentSays(content: seq<Json>, parts: seq<Part>) {
    && |content| == |parts| && Anthropic.TextOf(content) == TextParts(parts)
    && forall i :: 0 <= i < |parts| && parts[i].Image?
                   ==> IsImageBlock(content[i], parts[i].mediaType, parts[i].base64)
  }

  /** Two questions share their cached prefix exactly when they share their instructions; nothing of one asset is in
      it. */
  lemma {:induction false} PrefixIsTheInstructions(model: string, ask: Ask, otherModel: string, other: Ask)
    ensures Get(Anthropic.ParamsOf(model, ask), "system") == Get(Anthropic.ParamsOf(otherModel, other), "system")
            <==> ask.instructions == other.instructions
  {
    var x, y := Anthropic.ParamsOf(model, ask).fields["system"], Anthropic.ParamsOf(otherModel, other).fields["system"];
    assert Get(Anthropic.ParamsOf(model, ask), "system") == Some(x);
    assert Get(Anthropic.ParamsOf(otherModel, other), "system") == Some(y);
    assert x.items[0].fields["text"] == Str(ask.instructions) && y.items[0].fields["text"] == Str(other.instructions);
  }

  /** The question about an asset says its image and then its name, and nothing else in it is about that asset. So the
      questions of one brief share their cached prefix and what they ask for. */
  lemma {:induction false} QuestionsOfOneBrief(instructions: string, image: Part, filename: string, other: Part,
                                               otherName: string, model: string)
    ensures var ask, another := Enrich.AskFor(instructions, image, filename), Enrich.AskFor(instructions, other,
                                                                                            otherName);
            && ask.parts[0] == image && |ask.parts| == 2 && ask.parts[1].Text?
            && (exists before, after :: ask.parts[1].text == before + filename + after)
            && ask.instructions == instructions && ask.schema == Some(Enrich.Schema())
            && another == ask.(parts := another.parts)
            && Get(Anthropic.ParamsOf(model, ask), "system") == Get(Anthropic.ParamsOf(model, another), "system")
  {
    var ask, another := Enrich.AskFor(instructions, image, filename), Enrich.AskFor(instructions, other, otherName);
    assert ask.parts[1].text == "The file is named " + filename + ". Describe the image.";
    PrefixIsTheInstructions(model, ask, model, another);
  }

  /** Each request of a batch carries, under the key its result will be claimed by, the id of its item, and asks what
      asking it now would have asked. */
  lemma {:induction false} RequestsCarryTheirIds(model: string, items: seq<Batch.BatchItem>, i: nat)
    requires i < |items|
    ensures exists requests :: HoldsAt(Batch.Body(model, items), "requests", Arr(requests)) && |requests| == |items|
                               && SaysOf(requests[i], "custom_id", items[i].customId)
                               && HoldsAt(requests[i], "params", Anthropic.ParamsOf(model, items[i].ask))
  {
    var requests := Batch.Body(model, items).fields["requests"].items;
    assert HoldsAt(Batch.Body(model, items), "requests", Arr(requests));
  }

  // ---------- a batch's pages ----------

  /** A submission is accepted exactly when it carries between one and a hundred thousand requests. */
  lemma {:induction false} SizeIsAcceptedIff(size: nat)
    ensures Batch.RefuseSize(size) == None <==> 1 <= size <= 100_000
    ensures Batch.RefuseSize(size).Some? ==> !Batch.RefuseSize(size).value.IsTransient()
  {
  }

  /** A submission that succeeded is known by the id its answer carries, and by no other. */
  lemma {:induction false} BatchIdIsRead(answer: Answer)
    requires IsSuccess(answer.status)
    ensures forall id :: SaysOf(answer.body, "id", id) ==> Batch.ReadBatchId(Ok(answer)) == Ok(id)
    ensures (forall id :: !SaysOf(answer.body, "id", id))
            ==> Batch.ReadBatchId(Ok(answer)) == Err(Unreadable(NoBatchId))
  {
    if AsStr(Get(answer.body, "id")).Some? {
      assert SaysOf(answer.body, "id", AsStr(Get(answer.body, "id")).value);
    }
  }

  /** A page about a batch is read as that batch: under the id it carries, or else the one asked about; ended exactly
      when it says so, cancelling when it says that in either spelling, and still at work whatever else it says; with
      each of the five counts as reported. */
  lemma {:induction false} StatusIsRead(parse: Parser, batchId: string, status: nat, page: string, body: Json)
    requires Arrived(parse, status, page, body)
    ensures var read := Batch.ReadStatus(parse, batchId, status, page);
            && read.Ok?
            && (SaysOf(body, "id", read.value.id)
                || ((forall id :: !SaysOf(body, "id", id)) && read.value.id == batchId))
            && (read.value.state.Ended? <==> SaysOf(body, "processing_status", "ended"))
            && (read.value.state.Cancelling?
                <==> SaysOf(body, "processing_status", "canceling") || SaysOf(body, "processing_status", "cancelling"))
            && CountsIn(body, "request_counts", "succeeded", read.value.succeeded)
            && CountsIn(body, "request_counts", "errored", read.value.errored)
            && CountsIn(body, "request_counts", "canceled", read.value.canceled)
            && CountsIn(body, "request_counts", "expired", read.value.expired)
            && CountsIn(body, "request_counts", "processing", read.value.processing)
  {
    CountIsReported(body, "succeeded");
    CountIsReported(body, "errored");
    CountIsReported(body, "canceled");
    CountIsReported(body, "expired");
    CountIsReported(body, "processing");
    StateIsRead(body);
    if AsStr(Get(body, "id")).Some? {
      assert SaysOf(body, "id", AsStr(Get(body, "id")).value);
    }
  }

  lemma {:induction false} CountIsReported(body: Json, name: string)
    requires name != "" && !IsDigit(name[0])
    ensures CountsIn(body, "request_counts", name, Batch.RequestCount(body, name))
  {
    assert !IsDigit("request_counts"[0]);
    PointerSays(body, "request_counts", name);
  }

  lemma {:induction false} StateIsRead(body: Json)
    ensures var state := Batch.StateNamed(AsStr(Get(body, "processing_status")));
            && (state.Ended? <==> SaysOf(body, "processing_status", "ended"))
            && (state.Cancelling?
                <==> SaysOf(body, "processing_status", "canceling") || SaysOf(body, "processing_status", "cancelling"))
  {
    assert "ended"[0] != "canceling"[0] && "ended"[0] != "cancelling"[0];
  }

  ghost predicate KindIs(line: Json, kind: string) {
    SaysIn(line, "result", "type", kind)
  }

  ghost predicate HasMessage(line: Json) {
    line.Obj? && "result" in line.fields && line.fields["result"].Obj? && "message" in line.fields["result"].fields
  }

  /** A line can be read exactly when something can claim it and it is of a kind that is known, and a success only with
      its message. One that says no kind is a failure. */
  lemma {:induction false} LineIsReadIff(parse: Parser, line: Json)
    ensures Batch.ReadLine(parse, line).Ok?
            <==> && (exists id :: SaysOf(line, "custom_id", id))
                 && ((forall kind :: !KindIs(line, kind)) || KindIs(line, "errored") || KindIs(line, "expired")
                     || KindIs(line, "canceled") || KindIs(line, "cancelled")
                     || (KindIs(line, "succeeded") && HasMessage(line)))
    ensures Batch.ReadLine(parse, line).Ok?
            ==> && SaysOf(line, "custom_id", Batch.ReadLine(parse, line).value.customId)
                && (Batch.ReadLine(parse, line).value.outcome.Canceled?
                    <==> KindIs(line, "canceled") || KindIs(line, "cancelled"))
                && (Batch.ReadLine(parse, line).value.outcome.Expired? <==> KindIs(line, "expired"))
                && (Batch.ReadLine(parse, line).value.outcome.Errored?
                    <==> KindIs(line, "errored") || forall kind :: !KindIs(line, kind))
  {
    KindIsRead(line);
    assert "errored"[0] != "succeeded"[0] && "expired"[1] != "errored"[1] && "canceled"[0] != "errored"[0];
    assert "cancelled"[0] != "errored"[0] && "expired"[0] != "canceled"[0] && "succeeded"[0] != "canceled"[0];
    if AsStr(Get(line, "custom_id")).Some? {
      assert SaysOf(line, "custom_id", AsStr(Get(line, "custom_id")).value);
    }
  }

  lemma {:induction false} KindIsRead(line: Json)
    ensures var kind := match Get(line, "result") { case Some(r) => AsStr(Get(r, "type")) case None => None };
            && (forall k :: KindIs(line, k) <==> kind == Some(k))
            && (kind == None <==> forall k :: !KindIs(line, k))
  {
    var kind := match Get(line, "result") { case Some(r) => AsStr(Get(r, "type")) case None => None };
    if kind.Some? {
      assert KindIs(line, kind.value);
    }
  }

  /** What is said of a failed request: the words of the error inside its error, or of its error, or none. */
  lemma {:induction false} FailureSays(result: Json)
    ensures forall words :: FailsDeep(result, words) ==> Batch.FailureWords(result) == words
    ensures (!HasDeep(result) ==> forall words :: SaysIn(result, "error", "message", words)
                                                  ==> Batch.FailureWords(result) == words)
    ensures !HasDeep(result) && (forall words :: !SaysIn(result, "error", "message", words))
            ==> Batch.FailureWords(result) == "no reason given"
  {
    Batch.NamesAreNotIndices();
    PointerSays(result, "error", "message");
    assert ["error", "error", "message"][1..] == ["error", "message"];
    assert Child(result, "error") == Get(result, "error");
    if Get(result, "error").Some? {
      PointerSays(Get(result, "error").value, "error", "message");
      PointerOfKeys(Get(result, "error").value, "error", "message");
    }
  }

  ghost predicate HasDeep(result: Json) {
    && result.Obj? && "error" in result.fields && result.fields["error"].Obj?
       && "error" in result.fields["error"].fields
    && result.fields["error"].fields["error"].Obj? && "message" in result.fields["error"].fields["error"].fields
  }

  ghost predicate FailsDeep(result: Json, words: string) {
    HasDeep(result) && result.fields["error"].fields["error"].fields["message"] == Str(words)
  }

  /** The first line at fault: it is not JSON, and every line before it that is not blank can be read. */
  ghost predicate IsFirstFault(parse: Parser, lines: seq<string>, i: int) {
    && 0 <= i < |lines| && !IsBlank(lines[i]) && parse(lines[i]) == None
    && forall j :: 0 <= j < i && !IsBlank(lines[j]) ==> Batch.Readable(parse, lines[j])
  }

  lemma {:induction false} FaultFurtherOn(parse: Parser, lines: seq<string>, i: int)
    requires lines != [] && IsFirstFault(parse, lines[1..], i)
    requires IsBlank(lines[0]) || Batch.Readable(parse, lines[0])
    ensures IsFirstFault(parse, lines, i + 1)
  {
    var rest := lines[1..];
    assert lines[i + 1] == rest[i];
    forall j | 0 <= j < i + 1 && !IsBlank(lines[j])
      ensures Batch.Readable(parse, lines[j])
    {
      assert j > 0 ==> lines[j] == rest[j - 1];
    }
  }

  lemma {:induction false} ErrorIsFurtherOn(parse: Parser, lines: seq<string>, before: nat, n: nat)
    requires Batch.ReadLines(parse, lines, before) == Err(Unreadable(LineNotJson(n)))
    requires IsBlank(lines[0]) || parse(lines[0]).Some?
    ensures Batch.ReadLines(parse, lines[1..], before + 1) == Err(Unreadable(LineNotJson(n)))
    ensures IsBlank(lines[0]) || Batch.Readable(parse, lines[0])
  {
    if parse(lines[0]).Some? {
      LineErrorsAreOther(parse, parse(lines[0]).value, n);
    }
  }

  /** When a results file cannot be read because a line is not JSON, the line named is the first that is at fault,
      counted from one with the blank ones. */
  lemma {:induction false} FaultyLineIsNamed(parse: Parser, lines: seq<string>, before: nat, n: nat)
    requires Batch.ReadLines(parse, lines, before) == Err(Unreadable(LineNotJson(n)))
    ensures IsFirstFault(parse, lines, n - 1 - before)
  {
    if IsBlank(lines[0]) || parse(lines[0]).Some? {
      ErrorIsFurtherOn(parse, lines, before, n);
      FaultyLineIsNamed(parse, lines[1..], before + 1, n);
      FaultFurtherOn(parse, lines, n - 2 - before);
    }
  }

  lemma {:induction false} LineErrorsAreOther(parse: Parser, line: Json, n: nat)
    ensures Batch.ReadLine(parse, line).Err? ==> Batch.ReadLine(parse, line).error != Unreadable(LineNotJson(n))
  {
  }

  // ---------- the words of an error ----------

  /** The words of a provider's error, wherever its page keeps them, or the page itself when it is not JSON. */
  ghost predicate ErrorSays(parse: Parser, page: string, words: string) {
    match parse(page)
    case None => words == page
    case Some(body) => SaysIn(body, "error", "message", words)
                       || ((forall s :: !SaysIn(body, "error", "message", s)) && words == "no reason given")
  }

  /** Outside 2xx every client ends with the error of the status: unauthorised, or throttled with the wait, or else the
      status and the provider's words, to be retried or not. */
  lemma {:induction false} FailureIsTold(client: Clients.Client, parse: Parser, model: string, schemaAsked: bool,
                                         status: nat, page: string, retryAfter: Option<string>, words: string)
    requires !IsSuccess(status) && ErrorSays(parse, page, words)
    ensures Clients.PostError(client, parse, model, schemaAsked, status, page, retryAfter)
            == Some(if status == 401 || status == 403 then Unauthorised
                    else if status == 429 then RateLimited(RetryAfterSeconds(retryAfter))
                    else if 400 <= status <= 499 then Unreadable(ProviderRefused(status, words))
                    else Transient(ProviderFailed(status, words)))
  {
    Batch.NamesAreNotIndices();
    var folded := Obj(map["error" := Obj(map["message" := Str(page)])]);
    PointerSays(folded, "error", "message");
    assert SaysIn(folded, "error", "message", page);
    if parse(page).Some? {
      PointerSays(parse(page).value, "error", "message");
    }
    var answer := PostJson(parse, status, page, retryAfter);
    assert answer.Ok? && answer.value.status == status;
  }

  /** The page of a results file that is refused is told in the same way, but for the wait, which a GET never has. */
  lemma {:induction false} RefusedResultsAreTold(parse: Parser, status: nat, page: string, words: string)
    requires !IsSuccess(status) && ErrorSays(parse, page, words)
    ensures Batch.ReadResults(parse, status, page)
            == Err(if status == 401 || status == 403 then Unauthorised
                   else if status == 429 then RateLimited(None)
                   else if 400 <= status <= 499 then Unreadable(ProviderRefused(status, words))
                   else Transient(ProviderFailed(status, words)))
  {
    Batch.NamesAreNotIndices();
    var folded := Obj(map["error" := Obj(map["message" := Str(page)])]);
    PointerSays(folded, "error", "message");
    assert SaysIn(folded, "error", "message", page);
    if parse(page).Some? {
      PointerSays(parse(page).value, "error", "message");
    }
  }

  /** A successful page that is not JSON is unreadable to whoever posted, and no news of the queue's. */
  lemma {:induction false} SuccessMustBeJson(client: Clients.Client, parse: Parser, model: string, schemaAsked: bool,
                                             status: nat, page: string, retryAfter: Option<string>)
    requires IsSuccess(status) && parse(page) == None
    ensures Clients.PostError(client, parse, model, schemaAsked, status, page, retryAfter)
            == Some(Unreadable(NotJson(status)))
  {
  }

  // ---------- the scripted transport's replies ----------

  /** A scripted reply reaches a client as the page it stands for: as it is, or as a 429 with its wait, or, where it
      breaks the connection, as something to retry; and a text is no answer to a POST, and the page itself to a GET. */
  lemma {:induction false} ScriptedReplyIsDelivered(reply: Recorded.Reply, render: Json -> string)
    ensures match Recorded.PostAnswer(reply)
            case Ok(answer) =>
              (reply.Http? || reply.Throttled?) && answer.body == reply.body
              && answer.status == (if reply.Http? then reply.status else 429)
              && answer.retryAfter == (if reply.Throttled? then Some(reply.seconds) else None)
            case Err(error) => (reply.Broken? || reply.Text?) && (error.IsTransient() <==> reply.Broken?)
    ensures match Recorded.GetAnswer(reply, render)
            case Ok((status, page)) =>
              !reply.Broken? && page == (if reply.Text? then reply.text else render(reply.body))
              && status == (if reply.Throttled? then 429 else reply.status)
            case Err(error) => reply.Broken? && error.IsTransient()
  {
  }
}
