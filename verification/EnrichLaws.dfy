/** What an answer must hold to be read, where each part of it goes, and what a word has to spell to name a term
    (crates/dam-ai/src/enrich.rs). */
module EnrichLaws {
  import opened Enrich
  import opened Json
  import opened Model
  import opened Text
  import opened Wrappers

  // ---------- which term a word names ----------

  /** A term spells a word: lower-cased, one of its wordings is the trimmed word lower-cased. */
  ghost predicate Spells(lower: Lowering, term: TermOffer, word: string) {
    lower(term.slug) == lower(Trim(word)) || lower(term.labelText) == lower(Trim(word))
    || exists i :: 0 <= i < |term.synonyms| && lower(term.synonyms[i]) == lower(Trim(word))
  }

  /** A word names the first term that spells it, and names none when it is blank or no term does. Its case and the
      space around it do not matter. */
  lemma {:induction false} ResolveIff(lower: Lowering, vocabulary: seq<TermOffer>, word: string, other: string)
    ensures forall term :: Resolve(lower, vocabulary, word) == Some(term)
                           <==> Trim(word) != "" && exists k :: SpellsFirst(lower, vocabulary, k, word, term)
    ensures lower(Trim(word)) == lower(Trim(other))
            ==> Resolve(lower, vocabulary, word) == Resolve(lower, vocabulary, other)
  {
    var wanted := lower(Trim(word));
    FindSpec(lower, vocabulary, wanted);
    forall term
      ensures Resolve(lower, vocabulary, word) == Some(term)
              <==> Trim(word) != "" && exists k :: SpellsFirst(lower, vocabulary, k, word, term)
    {
      if Resolve(lower, vocabulary, word) == Some(term) {
        var k :| 0 <= k < |vocabulary| && vocabulary[k] == term && Matches(lower, term, wanted)
                 && forall j :: 0 <= j < k ==> !Matches(lower, vocabulary[j], wanted);
        assert SpellsFirst(lower, vocabulary, k, word, term);
      }
      if k :| Trim(word) != "" && SpellsFirst(lower, vocabulary, k, word, term) {
        FoundFirst(lower, vocabulary, k, wanted);
      }
    }
  }

  ghost predicate SpellsFirst(lower: Lowering, vocabulary: seq<TermOffer>, k: int, word: string, term: TermOffer) {
    && 0 <= k < |vocabulary| && vocabulary[k] == term && Spells(lower, term, word)
    && forall j :: 0 <= j < k ==> !Spells(lower, vocabulary[j], word)
  }

  lemma {:induction false} FoundFirst(lower: Lowering, vocabulary: seq<TermOffer>, k: int, wanted: string)
    requires 0 <= k < |vocabulary| && Matches(lower, vocabulary[k], wanted)
    requires forall j :: 0 <= j < k ==> !Matches(lower, vocabulary[j], wanted)
    ensures Find(lower, vocabulary, wanted) == Some(vocabulary[k])
  {
    if k > 0 {
      assert !Matches(lower, vocabulary[0], wanted);
      assert forall j :: 0 <= j < |vocabulary[1..]| ==> vocabulary[1..][j] == vocabulary[j + 1];
      FoundFirst(lower, vocabulary[1..], k - 1, wanted);
    }
  }

  // ---------- where each part of an answer goes ----------

  ghost predicate IsWords(tags: Json, words: seq<string>) {
    tags.Arr? && |tags.items| == |words| && forall i :: 0 <= i < |words| ==> tags.items[i] == Str(words[i])
  }

  ghost predicate IsNumber(confidence: Json, x: real) {
    confidence == Float(x) || (confidence.Int? && confidence.i as real == x)
  }

  /** An object with the four keys, and any others, or an array of the four in order. */
  ghost predicate Holds(answer: Json, altText: Json, description: Json, tags: Json, confidence: Json) {
    || answer == Arr([altText, description, tags, confidence])
    || (answer.Obj? && "alt_text" in answer.fields && answer.fields["alt_text"] == altText
        && "description" in answer.fields && answer.fields["description"] == description
        && "tags" in answer.fields && answer.fields["tags"] == tags
        && "confidence" in answer.fields && answer.fields["confidence"] == confidence)
  }

  ghost predicate Answers(answer: Json, altText: string, description: string, words: seq<string>, x: real,
                          tags: Json, confidence: Json) {
    Holds(answer, Str(altText), Str(description), tags, confidence) && IsWords(tags, words) && IsNumber(confidence, x)
  }

  lemma {:induction false} StringsAreWords(items: seq<Json>)
    ensures forall words :: Strings(items) == Some(words) <==> IsWords(Arr(items), words)
  {
    if items != [] {
      StringsAreWords(items[1..]);
      assert forall i :: 0 <= i < |items[1..]| ==> items[1..][i] == items[i + 1];
      forall words
        ensures Strings(items) == Some(words) <==> IsWords(Arr(items), words)
      {
        if words != [] {
          assert forall i :: 0 <= i < |words[1..]| ==> words[1..][i] == words[i + 1];
          assert words == [words[0]] + words[1..];
          if IsWords(Arr(items), words) {
            assert IsWords(Arr(items[1..]), words[1..]);
          }
          if Strings(items) == Some(words) {
            assert Strings(items[1..]) == Some(words[1..]);
            assert forall i :: 0 < i < |words| ==> items[i] == items[1..][i - 1];
          }
        }
      }
    }
  }

  lemma {:induction false} FieldsAre(altText: Json, description: Json, tags: Json, confidence: Json, d: Described)
    ensures Fields(Some(altText), Some(description), Some(tags), Some(confidence)) == Some(d)
            <==> && altText == Str(d.altText) && description == Str(d.description)
                 && IsWords(tags, d.tags) && IsNumber(confidence, d.confidence)
  {
    if tags.Arr? {
      StringsAreWords(tags.items);
      assert tags == Arr(tags.items);
    }
  }

  lemma {:induction false} DescribedIff(answer: Json, d: Described)
    ensures Deserialise(answer) == Some(d)
            <==> exists tags, confidence ::
                Answers(answer, d.altText, d.description, d.tags, d.confidence, tags, confidence)
  {
    match answer
    case Obj(fields) =>
      if "alt_text" in fields && "description" in fields && "tags" in fields && "confidence" in fields {
        FieldsAre(fields["alt_text"], fields["description"], fields["tags"], fields["confidence"], d);
        assert Deserialise(answer) == Some(d)
               <==> Answers(answer, d.altText, d.description, d.tags, d.confidence, fields["tags"],
                            fields["confidence"]);
      }
    case Arr(items) =>
      if |items| == 4 {
        FieldsAre(items[0], items[1], items[2], items[3], d);
        assert items == [items[0], items[1], items[2], items[3]];
        assert Deserialise(answer) == Some(d)
               <==> Answers(answer, d.altText, d.description, d.tags, d.confidence, items[2], items[3]);
      }
    case _ =>
  }

  /** An answer that holds the four parts is read part by part: the alt text and the description each trimmed into
      its own place, the tags and unknown words of exactly those words, the confidence as it was or at the end of the
      unit interval it was beyond, and the completion's model and usage as they were. */
  lemma {:induction false} AnswerIsRead(lower: Lowering, brief: Brief, completion: Completion, altText: string,
                                        description: string, words: seq<string>, x: real, tags: Json, confidence: Json)
    requires completion.structured.Some?
    requires Answers(completion.structured.value, altText, description, words, x, tags, confidence)
    ensures var read := Suggest(lower, brief, completion);
            && read.Ok?
            && read.value.altText == Trim(altText) && read.value.description == Trim(description)
            && read.value.tags == TagsOf(lower, brief.vocabulary, words)
            && read.value.unknownTags == UnknownOf(lower, brief.vocabulary, words)
            && read.value.confidence == (if x <= 0.0 then 0.0 else if x >= 1.0 then 1.0 else x)
            && read.value.model == completion.model && read.value.usage == completion.usage
  {
    DescribedIff(completion.structured.value, Described(altText, description, words, x));
  }

  /** Reading fails exactly when there is no structured output, or one of the four parts is missing or of another type,
      and says which of the two it was. */
  lemma {:induction false} ReadFailsIff(lower: Lowering, brief: Brief, completion: Completion)
    ensures var read := Suggest(lower, brief, completion);
            && (read.Err? ==> read.error == Unreadable(if completion.structured.None? then NoStructuredOutput
                                                       else SchemaMismatch))
            && (read.Ok? <==> completion.structured.Some?
                              && exists a, d, words, x, tags, confidence ::
                                   Answers(completion.structured.value, a, d, words, x, tags, confidence))
  {
    if completion.structured.Some? {
      var answer := completion.structured.value;
      if Deserialise(answer).Some? {
        DescribedIff(answer, Deserialise(answer).value);
      }
      if a, d, words, x, tags, confidence :| Answers(answer, a, d, words, x, tags, confidence) {
        DescribedIff(answer, Described(a, d, words, x));
      }
    }
  }

  // ---------- the schema asked for is the answer read ----------

  ghost predicate IsOfType(kind: Json, value: Json) {
    && (kind == Str("string") ==> value.Str?)
    && (kind == Str("number") ==> value.Int? || value.Float?)
    && (kind == Str("array") ==> value.Arr?)
    && (kind == Str("object") ==> value.Obj?)
  }

  ghost predicate MeetsRequired(schema: Json, value: Json) {
    match Get(schema, "required")
    case Some(Arr(names)) => forall i :: 0 <= i < |names| && names[i].Str? ==> Get(value, names[i].s).Some?
    case _ => true
  }

  ghost predicate MeetsItems(schema: Json, value: Json) {
    match Get(schema, "items")
    case Some(item) =>
      value.Arr? ==> forall i :: 0 <= i < |value.items| ==> IsOfType(Get(item, "type").GetOr(Null), value.items[i])
    case None => true
  }

  ghost predicate MeetsProperty(property: Json, value: Json) {
    IsOfType(Get(property, "type").GetOr(Null), value) && MeetsItems(property, value)
  }

  /** The part of JSON Schema that the question's schema is written in. */
  ghost predicate Conforms(schema: Json, value: Json) {
    && IsOfType(Get(schema, "type").GetOr(Null), value) && MeetsRequired(schema, value)
    && match Get(schema, "properties")
       case Some(Obj(properties)) =>
         value.Obj?
         ==> && MeetsEach(properties, value.fields)
             && (Get(schema, "additionalProperties") == Some(Bool(false)) ==> value.fields.Keys <= properties.Keys)
       case _ => true
  }

  ghost predicate IsTextType(property: Json) {
    Get(property, "type") == Some(Str("string")) && Get(property, "items") == None
  }

  lemma {:induction false} SchemaShape() returns (properties: map<string, Json>)
    ensures Get(Schema(), "type") == Some(Str("object")) && Get(Schema(), "additionalProperties") == Some(Bool(false))
    ensures Get(Schema(), "required")
            == Some(Arr([Str("alt_text"), Str("description"), Str("tags"), Str("confidence")]))
    ensures Get(Schema(), "properties") == Some(Obj(properties))
    ensures properties.Keys == {"alt_text", "description", "tags", "confidence"}
    ensures IsTextType(properties["alt_text"]) && IsTextType(properties["description"])
    ensures Get(properties["tags"], "type") == Some(Str("array"))
    ensures Get(properties["tags"], "items").Some? && IsTextType(Get(properties["tags"], "items").value)
    ensures Get(properties["confidence"], "type") == Some(Str("number"))
            && Get(properties["confidence"], "items") == None
  {
    assert |"type"| == 4 && |"properties"| == 10 && |"required"| == 8 && |"items"| == 5
           && |"additionalProperties"| == 20;
    assert |"alt_text"| == 8 && |"description"| == 11 && |"tags"| == 4 && |"confidence"| == 10;
    properties := Schema().fields["properties"].fields;
  }

  lemma {:induction false} TypesAreTold(value: Json)
    ensures IsOfType(Str("string"), value) <==> value.Str?
    ensures IsOfType(Str("number"), value) <==> value.Int? || value.Float?
    ensures IsOfType(Str("array"), value) <==> value.Arr?
    ensures IsOfType(Str("object"), value) <==> value.Obj?
  {
    assert |"string"| == 6 && |"number"| == 6 && |"array"| == 5 && |"object"| == 6;
    assert "string"[0] != "number"[0] && "string"[0] != "object"[0] && "number"[0] != "object"[0];
  }

  lemma {:induction false} ConformsIff(value: Json) returns (properties: map<string, Json>)
    ensures Get(Schema(), "properties") == Some(Obj(properties))
    ensures properties.Keys == {"alt_text", "description", "tags", "confidence"}
    ensures IsTextType(properties["alt_text"]) && IsTextType(properties["description"])
    ensures Get(properties["tags"], "type") == Some(Str("array"))
    ensures Get(properties["tags"], "items").Some? && IsTextType(Get(properties["tags"], "items").value)
    ensures Get(properties["confidence"], "type") == Some(Str("number"))
            && Get(properties["confidence"], "items") == None
    ensures Conforms(Schema(), value)
            <==> value.Obj? && MeetsRequired(Schema(), value) && MeetsEach(properties, value.fields)
                 && value.fields.Keys <= properties.Keys
  {
    properties := SchemaShape();
    TypesAreTold(value);
  }

  /** The schema an asset's question carries asks for exactly what the reader takes: an object of those four keys
      satisfies the one exactly when it can be read by the other, and nothing else satisfies the schema. */
  lemma {:induction false} SchemaAsksForWhatIsRead(value: Json)
    ensures Conforms(Schema(), value)
            <==> value.Obj? && value.fields.Keys == {"alt_text", "description", "tags", "confidence"}
                 && Deserialise(value).Some?
  {
    var properties := ConformsIff(value);
    RequiredAreThere(value);
    if value.Obj? {
      FourKeys(value.fields);
      if value.fields.Keys == properties.Keys {
        FourFieldsConform(properties, value);
      }
    }
  }

  lemma {:induction false} FourKeys(fields: map<string, Json>)
    ensures fields.Keys == {"alt_text", "description", "tags", "confidence"}
            <==> && fields.Keys <= {"alt_text", "description", "tags", "confidence"}
                 && "alt_text" in fields && "description" in fields && "tags" in fields && "confidence" in fields
  {
  }

  lemma {:induction false} RequiredAreThere(value: Json)
    ensures MeetsRequired(Schema(), value)
            <==> && Get(value, "alt_text").Some? && Get(value, "description").Some?
                 && Get(value, "tags").Some? && Get(value, "confidence").Some?
  {
    var properties := SchemaShape();
    var names := [Str("alt_text"), Str("description"), Str("tags"), Str("confidence")];
    assert names[0].s == "alt_text" && names[1].s == "description" && names[2].s == "tags"
           && names[3].s == "confidence";
  }

  ghost predicate MeetsEach(properties: map<string, Json>, fields: map<string, Json>) {
    forall name :: name in fields && name in properties ==> MeetsProperty(properties[name], fields[name])
  }

  lemma {:induction false} EachOfFour(properties: map<string, Json>, fields: map<string, Json>)
    requires fields.Keys == {"alt_text", "description", "tags", "confidence"} == properties.Keys
    ensures MeetsEach(properties, fields)
            <==> && MeetsProperty(properties["alt_text"], fields["alt_text"])
                 && MeetsProperty(properties["description"], fields["description"])
                 && MeetsProperty(properties["tags"], fields["tags"])
                 && MeetsProperty(properties["confidence"], fields["confidence"])
  {
    assert forall name :: name in fields ==> name in {"alt_text", "description", "tags", "confidence"};
  }

  lemma {:induction false} FourFieldsConform(properties: map<string, Json>, value: Json)
    requires value.Obj? && value.fields.Keys == {"alt_text", "description", "tags", "confidence"} == properties.Keys
    requires IsTextType(properties["alt_text"]) && IsTextType(properties["description"])
    requires Get(properties["tags"], "type") == Some(Str("array"))
    requires Get(properties["tags"], "items").Some? && IsTextType(Get(properties["tags"], "items").value)
    requires Get(properties["confidence"], "type") == Some(Str("number"))
             && Get(properties["confidence"], "items") == None
    ensures MeetsEach(properties, value.fields) <==> Deserialise(value).Some?
  {
    var fields := value.fields;
    EachOfFour(properties, fields);
    TypesAreTold(fields["alt_text"]);
    TypesAreTold(fields["description"]);
    TypesAreTold(fields["confidence"]);
    TagsConform(properties["tags"], fields["tags"]);
    DeserialiseFour(fields);
  }

  lemma {:induction false} DeserialiseFour(fields: map<string, Json>)
    requires fields.Keys == {"alt_text", "description", "tags", "confidence"}
    ensures Deserialise(Obj(fields)).Some?
            <==> && fields["alt_text"].Str? && fields["description"].Str?
                 && fields["tags"].Arr? && Strings(fields["tags"].items).Some?
                 && (fields["confidence"].Int? || fields["confidence"].Float?)
  {
  }

  lemma {:induction false} TagsConform(property: Json, tags: Json)
    requires Get(property, "type") == Some(Str("array"))
    requires Get(property, "items").Some? && IsTextType(Get(property, "items").value)
    ensures MeetsProperty(property, tags) <==> tags.Arr? && Strings(tags.items).Some?
  {
    TypesAreTold(tags);
    if tags.Arr? {
      forall i | 0 <= i < |tags.items|
        ensures IsOfType(Str("string"), tags.items[i]) <==> tags.items[i].Str?
      {
        TypesAreTold(tags.items[i]);
      }
      AllStrings(tags.items);
    }
  }

  lemma {:induction false} AllStrings(items: seq<Json>)
    ensures Strings(items).Some? <==> forall i :: 0 <= i < |items| ==> items[i].Str?
  {
    if items != [] {
      AllStrings(items[1..]);
      assert forall i :: 0 <= i < |items[1..]| ==> items[1..][i] == items[i + 1];
      if forall i :: 0 <= i < |items[1..]| ==> items[1..][i].Str? {
        assert forall i :: 0 < i < |items| ==> items[i] == items[1..][i - 1];
      }
    }
  }
}
