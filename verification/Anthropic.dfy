/** The Messages API client: what it asks and how it reads the answer (crates/dam-ai/src/anthropic.rs). */
module Anthropic {
  import opened Json
  import opened Model
  import opened Pricing
  import opened Text
  import opened Widths
  import opened Wrappers

  // ---------- the question ----------

  function EffortName(effort: Effort): string {
    match effort
    case Low => "low"
    case Medium => "medium"
    case High => "high"
  }

  function PartBlock(part: Part): Json {
    match part
    case Text(text) => Obj(map["type" := Str("text"), "text" := Str(text)])
    case Image(mediaType, base64) => Obj(map[
      "type" := Str("image"),
      "source" := Obj(map["type" := Str("base64"), "media_type" := Str(mediaType), "data" := Str(base64)])
    ])
  }

  function Content(parts: seq<Part>): seq<Json> {
    seq(|parts|, i requires 0 <= i < |parts| => PartBlock(parts[i]))
  }

  function OutputConfig(ask: Ask): Json {
    match ask.schema
    case None => Obj(map["effort" := Str(EffortName(ask.effort))])
    case Some(schema) => Obj(map[
      "effort" := Str(EffortName(ask.effort)),
      "format" := Obj(map["type" := Str("json_schema"), "schema" := schema])
    ])
  }

  function Params(model: string, ask: Ask, content: seq<Json>, outputConfig: Json): Json {
    Obj(map[
      "model" := Str(model),
      "max_tokens" := Int(ask.maxTokens),
      "system" := Arr([Obj(map[
        "type" := Str("text"),
        "text" := Str(ask.instructions),
        "cache_control" := Obj(map["type" := Str("ephemeral")])
      ])]),
      "messages" := Arr([Obj(map["role" := Str("user"), "content" := Arr(content)])]),
      "output_config" := outputConfig
    ])
  }

  ghost function ParamsOf(model: string, ask: Ask): Json {
    Params(model, ask, Content(ask.parts), OutputConfig(ask))
  }

  method MessageParams(model: string, ask: Ask) returns (params: Json)
    ensures params == ParamsOf(model, ask)
  {
    var content: seq<Json> := [];
    for i := 0 to |ask.parts|
      invariant content == Content(ask.parts)[..i]
    {
      content := content + [PartBlock(ask.parts[i])];
    }
    assert content == Content(ask.parts);
    var outputConfig := map["effort" := Str(EffortName(ask.effort))];
    if ask.schema.Some? {
      outputConfig := outputConfig["format" := Obj(map["type" := Str("json_schema"), "schema" := ask.schema.value])];
    }
    assert OutputConfig(ask).fields == outputConfig;
    params := Params(model, ask, content, Obj(outputConfig));
  }

  lemma {:induction false} PartFromBlock(p: Part, q: Part)
    requires PartBlock(p) == PartBlock(q)
    ensures p == q
  {
    var fields, others := PartBlock(p).fields, PartBlock(q).fields;
    assert fields["type"] == others["type"];
    if p.Text? {
      assert q.Text?;
      assert fields["text"] == others["text"];
    } else {
      assert q.Image?;
      assert fields["source"] == others["source"];
      var source, other := fields["source"].fields, others["source"].fields;
      assert source["media_type"] == other["media_type"] && source["data"] == other["data"];
    }
  }

  lemma {:induction false} OutputConfigDetermines(a: Ask, b: Ask)
    requires OutputConfig(a) == OutputConfig(b)
    ensures a.schema == b.schema && a.effort == b.effort
  {
    var x, y := OutputConfig(a).fields, OutputConfig(b).fields;
    assert x["effort"] == y["effort"];
    assert EffortName(a.effort) == EffortName(b.effort);
    assert EffortName(a.effort)[0] == EffortName(b.effort)[0];
    assert ("format" in x) <==> a.schema.Some?;
    assert ("format" in y) <==> b.schema.Some?;
    if a.schema.Some? {
      assert x["format"] == y["format"];
      assert x["format"].fields["schema"] == y["format"].fields["schema"];
    }
  }

  /** Two requests with the same body asked the same model the same question: nothing of an ask is lost on the
      way to the wire, so a batch that asked something subtly different would differ in its body. */
  lemma {:induction false} ParamsDetermineTheAsk(model: string, ask: Ask, otherModel: string, other: Ask)
    requires ParamsOf(model, ask) == ParamsOf(otherModel, other)
    ensures model == otherModel && ask == other
  {
    var x, y := ParamsOf(model, ask).fields, ParamsOf(otherModel, other).fields;
    assert x["model"] == y["model"] && x["max_tokens"] == y["max_tokens"];
    assert x["system"] == y["system"] && x["messages"] == y["messages"] && x["output_config"] == y["output_config"];
    assert x["system"].items[0].fields["text"] == y["system"].items[0].fields["text"];
    assert x["messages"].items[0].fields["content"] == y["messages"].items[0].fields["content"];
    OutputConfigDetermines(ask, other);
    assert Content(ask.parts) == Content(other.parts);
    assert |Content(ask.parts)| == |ask.parts| && |Content(other.parts)| == |other.parts|;
    forall i | 0 <= i < |ask.parts|
      ensures ask.parts[i] == other.parts[i]
    {
      assert Content(ask.parts)[i] == Content(other.parts)[i];
      PartFromBlock(ask.parts[i], other.parts[i]);
    }
    assert ask.parts == other.parts;
  }

  // ---------- the answer ----------

  /** The text blocks of a message, joined. */
  function TextOf(blocks: seq<Json>): string {
    if blocks == [] then ""
    else
      var block := blocks[0];
      (if AsStr(Get(block, "type")) == Some("text") then AsStr(Get(block, "text")).GetOr("") else "")
      + TextOf(blocks[1..])
  }

  function Refused(body: Json): bool {
    AsStr(Get(body, "stop_reason")) == Some("refusal")
  }

  function RefusalReason(body: Json): Option<string> {
    var explanation := AsStr(Pointer(body, ["stop_details", "explanation"]));
    if explanation.Some? then explanation else AsStr(Pointer(body, ["stop_details", "category"]))
  }

  function Count(body: Json, name: string): U64 {
    match Get(body, "usage")
    case None => 0
    case Some(usage) => CountOr0(Get(usage, name))
  }

  function UsageOf(body: Json): Usage {
    Usage(Count(body, "input_tokens"), Count(body, "output_tokens"),
          Count(body, "cache_read_input_tokens"), Count(body, "cache_creation_input_tokens"))
  }

  /** What `ask` makes of a successful answer: the refusal first, then the content, then the schema. */
  function Decode(parse: Parser, model: string, schemaAsked: bool, body: Json): Result<Completion, ModelError> {
    if Refused(body) then Err(Declined(RefusalReason(body)))
    else match AsArray(Get(body, "content"))
      case None => Err(Unreadable(NoContent))
      case Some(blocks) =>
        var text := TextOf(blocks);
        var structured := if schemaAsked then parse(Trim(text)) else None;
        if schemaAsked && structured.None? then Err(Unreadable(NotTheSchemaJson))
        else Ok(Completion(text, structured, AsStr(Get(body, "model")).GetOr(model), UsageOf(body)))
  }

  /** What `ask` returns for whatever the transport returned. */
  function Receive(parse: Parser, model: string, schemaAsked: bool, answer: Result<Answer, ModelError>)
    : Result<Completion, ModelError>
  {
    var answer :- answer;
    if !IsSuccess(answer.status) then Err(StatusError(answer.status, answer.body, answer.retryAfter))
    else Decode(parse, model, schemaAsked, answer.body)
  }
}
