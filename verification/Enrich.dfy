/** What to ask about one asset, and how to read the answer against the tenant's vocabulary
    (crates/dam-ai/src/enrich.rs). */
module Enrich {
  import opened Dedupe
  import opened Json
  import opened Model
  import opened Pricing
  import opened Text
  import opened Wrappers

  /** Lower-casing, of which one law is used throughout: it neither empties a word nor invents one. */
  type Lowering = lower: string -> string | (forall s :: lower(s) == "" <==> s == "") witness (s: string) => s

  datatype TermOffer = TermOffer(slug: string, labelText: string, synonyms: seq<string>)

  datatype Brief = Brief(guidance: string, vocabulary: seq<TermOffer>, language: string)

  /** The question about one asset. `instructions` is the brief's prompt text. It always asks for a schema. */
  function AskFor(instructions: string, image: Part, filename: string): (ask: Ask)
    ensures ask.schema.Some?
  {
    Ask(instructions, [image, Part.Text("The file is named " + filename + ". Describe the image.")],
        Some(Schema()), 1024, High)
  }

  function Schema(): Json {
    var text := Obj(map["type" := Str("string")]);
    Obj(map[
      "type" := Str("object"),
      "additionalProperties" := Bool(false),
      "properties" := Obj(map[
        "alt_text" := text,
        "description" := text,
        "tags" := Obj(map["type" := Str("array"), "items" := text]),
        "confidence" := Obj(map["type" := Str("number")])
      ]),
      "required" := Arr([Str("alt_text"), Str("description"), Str("tags"), Str("confidence")])
    ])
  }

  // ---------- matching one word ----------

  predicate Matches(lower: Lowering, term: TermOffer, wanted: string) {
    lower(term.slug) == wanted || lower(term.labelText) == wanted
    || exists i :: 0 <= i < |term.synonyms| && lower(term.synonyms[i]) == wanted
  }

  /** The first term a normalised word names. */
  function Find(lower: Lowering, vocabulary: seq<TermOffer>, wanted: string): Option<TermOffer> {
    if vocabulary == [] then None
    else if Matches(lower, vocabulary[0], wanted) then Some(vocabulary[0])
    else Find(lower, vocabulary[1..], wanted)
  }

  function Resolve(lower: Lowering, vocabulary: seq<TermOffer>, answered: string): Option<TermOffer> {
    var wanted := lower(Trim(answered));
    if wanted == "" then None else Find(lower, vocabulary, wanted)
  }

  lemma {:induction false} FindSpec(lower: Lowering, vocabulary: seq<TermOffer>, wanted: string)
    ensures match Find(lower, vocabulary, wanted)
            case None => forall term :: term in vocabulary ==> !Matches(lower, term, wanted)
            case Some(term) =>
              exists i :: 0 <= i < |vocabulary| && vocabulary[i] == term && Matches(lower, term, wanted)
                          && forall j :: 0 <= j < i ==> !Matches(lower, vocabulary[j], wanted)
  {
    if vocabulary != [] && !Matches(lower, vocabulary[0], wanted) {
      var rest := vocabulary[1..];
      FindSpec(lower, rest, wanted);
      match Find(lower, rest, wanted)
      case None =>
        forall term | term in vocabulary
          ensures !Matches(lower, term, wanted)
        {
          assert term == vocabulary[0] || term in rest;
        }
      case Some(term) =>
        var i :| 0 <= i < |rest| && rest[i] == term && Matches(lower, term, wanted)
                 && forall j :: 0 <= j < i ==> !Matches(lower, rest[j], wanted);
        assert vocabulary[i + 1] == term;
        forall j | 0 <= j < i + 1
          ensures !Matches(lower, vocabulary[j], wanted)
        {
          assert j > 0 ==> vocabulary[j] == rest[j - 1];
        }
    }
  }

  /** Every slug the prompt offers that is a trimmed, non-empty word can be answered with: it resolves to a term,
      to the first one whose slug, label or synonym is spelled like it. */
  lemma {:induction false} OfferedSlugResolves(lower: Lowering, vocabulary: seq<TermOffer>, k: nat)
    requires k < |vocabulary| && vocabulary[k].slug != "" && Trimmed(vocabulary[k].slug)
    ensures Resolve(lower, vocabulary, vocabulary[k].slug).Some?
    ensures (forall j :: 0 <= j < k ==> !Matches(lower, vocabulary[j], lower(vocabulary[k].slug)))
            ==> Resolve(lower, vocabulary, vocabulary[k].slug) == Some(vocabulary[k])
  {
    var slug := vocabulary[k].slug;
    TrimIdempotent(slug);
    assert Matches(lower, vocabulary[k], lower(slug));
    FindSpec(lower, vocabulary, lower(slug));
  }

  // ---------- reading an answer ----------

  datatype Described = Described(altText: string, description: string, tags: seq<string>, confidence: real)

  function Strings(items: seq<Json>): Option<seq<string>> {
    if items == [] then Some([])
    else match (items[0], Strings(items[1..]))
      case (Str(s), Some(rest)) => Some([s] + rest)
      case _ => None
  }

  function Fields(altText: Option<Json>, description: Option<Json>, tags: Option<Json>,
                  confidence: Option<Json>): Option<Described> {
    match (altText, description, tags, confidence)
    case (Some(Str(a)), Some(Str(d)), Some(Arr(items)), Some(c)) =>
      (match (Strings(items), AsNumber(c))
       case (Some(words), Some(x)) => Some(Described(a, d, words, x))
       case _ => None)
    case _ => None
  }

  /** Deserialising the structured answer. A derived struct reader takes an object, ignoring further fields, or an
      array holding exactly the four fields in order. */
  function Deserialise(v: Json): Option<Described> {
    match v
    case Obj(_) => Fields(Get(v, "alt_text"), Get(v, "description"), Get(v, "tags"), Get(v, "confidence"))
    case Arr(items) =>
      if |items| == 4 then Fields(Some(items[0]), Some(items[1]), Some(items[2]), Some(items[3])) else None
    case _ => None
  }

  datatype Suggestion = Suggestion(
    altText: string, description: string, tags: seq<string>, unknownTags: seq<string>,
    confidence: real, model: string, usage: Usage)

  function Clamp01(x: real): (y: real)
    ensures 0.0 <= y <= 1.0
    ensures 0.0 <= x <= 1.0 ==> y == x
    ensures y == x || y == 0.0 || y == 1.0
  {
    if x < 0.0 then 0.0 else if x > 1.0 then 1.0 else x
  }

  /** The slug of the term a word names. */
  function SlugFor(lower: Lowering, vocabulary: seq<TermOffer>, word: string): Option<string> {
    match Resolve(lower, vocabulary, word)
    case Some(term) => Some(term.slug)
    case None => None
  }

  /** The word itself, when it is one and names no term. */
  function UnknownWord(lower: Lowering, vocabulary: seq<TermOffer>, word: string): Option<string> {
    if SlugFor(lower, vocabulary, word).Some? || IsBlank(word) then None else Some(Trim(word))
  }

  ghost function Slugs(lower: Lowering, vocabulary: seq<TermOffer>, words: seq<string>): (slugs: seq<Option<string>>)
    ensures |slugs| == |words|
  {
    seq(|words|, i requires 0 <= i < |words| => SlugFor(lower, vocabulary, words[i]))
  }

  ghost function Unknowns(lower: Lowering, vocabulary: seq<TermOffer>,
                          words: seq<string>): (unknowns: seq<Option<string>>)
    ensures |unknowns| == |words|
  {
    seq(|words|, i requires 0 <= i < |words| => UnknownWord(lower, vocabulary, words[i]))
  }

  ghost function TagsOf(lower: Lowering, vocabulary: seq<TermOffer>, words: seq<string>): seq<string> {
    Distinct(Slugs(lower, vocabulary, words))
  }

  ghost function UnknownOf(lower: Lowering, vocabulary: seq<TermOffer>, words: seq<string>): seq<string> {
    Distinct(Unknowns(lower, vocabulary, words))
  }

  ghost function Suggest(lower: Lowering, brief: Brief, completion: Completion): Result<Suggestion, ModelError> {
    match completion.structured
    case None => Err(Unreadable(NoStructuredOutput))
    case Some(v) =>
      match Deserialise(v)
      case None => Err(Unreadable(SchemaMismatch))
      case Some(answer) =>
        Ok(Suggestion(Trim(answer.altText), Trim(answer.description),
                      TagsOf(lower, brief.vocabulary, answer.tags), UnknownOf(lower, brief.vocabulary, answer.tags),
                      Clamp01(answer.confidence), completion.model, completion.usage))
  }

  method Read(lower: Lowering, completion: Completion, brief: Brief) returns (result: Result<Suggestion, ModelError>)
    ensures result == Suggest(lower, brief, completion)
  {
    if completion.structured.None? {
      return Err(Unreadable(NoStructuredOutput));
    }
    var deserialised := Deserialise(completion.structured.value);
    if deserialised.None? {
      return Err(Unreadable(SchemaMismatch));
    }
    var answer := deserialised.value;
    ghost var slugs := Slugs(lower, brief.vocabulary, answer.tags);
    ghost var unknowns := Unknowns(lower, brief.vocabulary, answer.tags);
    var tags: seq<string>, unknownTags: seq<string> := [], [];
    for i := 0 to |answer.tags|
      invariant tags == Distinct(slugs[..i])
      invariant unknownTags == Distinct(unknowns[..i])
    {
      DistinctStep(slugs, i);
      DistinctStep(unknowns, i);
      var answered := answer.tags[i];
      match SlugFor(lower, brief.vocabulary, answered) {
        case Some(slug) =>
          if slug !in tags {
            tags := tags + [slug];
          }
        case None =>
          var word := Trim(answered);
          if word != "" && word !in unknownTags {
            unknownTags := unknownTags + [word];
          }
      }
    }
    assert slugs[..|answer.tags|] == slugs && unknowns[..|answer.tags|] == unknowns;
    result := Ok(Suggestion(Trim(answer.altText), Trim(answer.description), tags, unknownTags,
                            Clamp01(answer.confidence), completion.model, completion.usage));
  }

  // ---------- what the split guarantees ----------

  lemma {:induction false} SlugForSpec(lower: Lowering, vocabulary: seq<TermOffer>, word: string)
    ensures SlugFor(lower, vocabulary, word).Some?
            ==> exists k :: 0 <= k < |vocabulary| && vocabulary[k].slug == SlugFor(lower, vocabulary, word).value
                            && Matches(lower, vocabulary[k], lower(Trim(word)))
    ensures UnknownWord(lower, vocabulary, word).Some?
            ==> var w := UnknownWord(lower, vocabulary, word).value;
                w == Trim(word) && w != "" && Trimmed(w) && SlugFor(lower, vocabulary, w).None?
  {
    FindSpec(lower, vocabulary, lower(Trim(word)));
    TrimIdempotent(word);
  }

  /** No slug of the vocabulary is ever an unknown word. */
  lemma {:induction false} SlugIsNotUnknown(lower: Lowering, vocabulary: seq<TermOffer>, k: nat, word: string)
    requires k < |vocabulary|
    ensures UnknownWord(lower, vocabulary, word) != Some(vocabulary[k].slug)
  {
    SlugForSpec(lower, vocabulary, word);
    if UnknownWord(lower, vocabulary, word) == Some(vocabulary[k].slug) {
      OfferedSlugResolves(lower, vocabulary, k);
    }
  }

  /** Reading an answer loses no word and counts none twice: every answered word is blank, or the term it names is
      among the tags, or it is itself among the unknown words, and no string is in both lists. Tags are slugs of
      the vocabulary and unknown words are trimmed words that name nothing; both lists are free of duplicates and
      in the order of first mention. */
  lemma {:induction false} AnswerIsPartitioned(lower: Lowering, vocabulary: seq<TermOffer>, words: seq<string>)
    returns (tagsAt: seq<nat>, unknownAt: seq<nat>)
    ensures var tags, unknown := TagsOf(lower, vocabulary, words), UnknownOf(lower, vocabulary, words);
            && NoDuplicates(tags) && FirstMentions(Slugs(lower, vocabulary, words), tags, tagsAt)
            && NoDuplicates(unknown) && FirstMentions(Unknowns(lower, vocabulary, words), unknown, unknownAt)
            && (forall t :: t in tags ==> t !in unknown)
            && (forall t :: t in tags ==> exists k :: 0 <= k < |vocabulary| && vocabulary[k].slug == t)
            && (forall w :: w in unknown ==> w != "" && Trimmed(w) && Resolve(lower, vocabulary, w).None?)
            && (forall i :: 0 <= i < |words| && !IsBlank(words[i]) ==>
                  if Resolve(lower, vocabulary, words[i]).Some?
                  then Resolve(lower, vocabulary, words[i]).value.slug in tags
                  else Trim(words[i]) in unknown)
  {
    var slugs, unknowns := Slugs(lower, vocabulary, words), Unknowns(lower, vocabulary, words);
    tagsAt := DistinctSpec(slugs);
    unknownAt := DistinctSpec(unknowns);
    var tags, unknown := TagsOf(lower, vocabulary, words), UnknownOf(lower, vocabulary, words);
    forall w | w in unknown
      ensures w != "" && Trimmed(w) && Resolve(lower, vocabulary, w).None?
    {
      var i :| 0 <= i < |words| && unknowns[i] == Some(w);
      SlugForSpec(lower, vocabulary, words[i]);
    }
    forall t | t in tags
      ensures t !in unknown
      ensures exists k :: 0 <= k < |vocabulary| && vocabulary[k].slug == t
    {
      var i :| 0 <= i < |words| && slugs[i] == Some(t);
      SlugForSpec(lower, vocabulary, words[i]);
      var k :| 0 <= k < |vocabulary| && vocabulary[k].slug == t;
      forall j | 0 <= j < |words|
        ensures unknowns[j] != Some(t)
      {
        SlugIsNotUnknown(lower, vocabulary, k, words[j]);
      }
    }
    forall i | 0 <= i < |words| && !IsBlank(words[i])
      ensures if Resolve(lower, vocabulary, words[i]).Some?
              then Resolve(lower, vocabulary, words[i]).value.slug in tags
              else Trim(words[i]) in unknown
    {
      assert slugs[i] == SlugFor(lower, vocabulary, words[i])
             && unknowns[i] == UnknownWord(lower, vocabulary, words[i]);
      assert slugs[i] in slugs && unknowns[i] in unknowns;
    }
  }

  // ---------- reading a suggestion's own tags again ----------

  /** Everything a term can be answered with. */
  function Wordings(term: TermOffer): seq<string> {
    [term.slug, term.labelText] + term.synonyms
  }

  /** A trimmed wording of a term that no earlier term is spelled like: answering with it names that term. */
  predicate Names(lower: Lowering, vocabulary: seq<TermOffer>, k: nat, wording: string)
    requires k < |vocabulary|
  {
    && wording in Wordings(vocabulary[k]) && wording != "" && wording == Trim(wording)
    && forall j :: 0 <= j < k ==> !Matches(lower, vocabulary[j], lower(wording))
  }

  /** Every term that some wording of its own names has a slug that is read back as itself. There are only so many
      terms and wordings, so this can be checked of a vocabulary before it is offered. */
  predicate SlugsAreStable(lower: Lowering, vocabulary: seq<TermOffer>) {
    forall k, wording ::
      0 <= k < |vocabulary| && wording in Wordings(vocabulary[k]) && Names(lower, vocabulary, k, wording)
      ==> SlugFor(lower, vocabulary, vocabulary[k].slug) == Some(vocabulary[k].slug)
  }

  lemma {:induction false} MatchesByAWording(lower: Lowering, term: TermOffer, wanted: string)
    ensures Matches(lower, term, wanted)
            <==> exists i :: 0 <= i < |Wordings(term)| && lower(Wordings(term)[i]) == wanted
  {
    var wordings := Wordings(term);
    assert wordings[0] == term.slug && wordings[1] == term.labelText;
    assert forall i :: 0 <= i < |term.synonyms| ==> wordings[i + 2] == term.synonyms[i];
    if i :| 0 <= i < |term.synonyms| && lower(term.synonyms[i]) == wanted {
      assert lower(wordings[i + 2]) == wanted;
    }
    if i :| 0 <= i < |wordings| && lower(wordings[i]) == wanted {
      assert i >= 2 ==> term.synonyms[i - 2] == wordings[i];
    }
  }

  /** Another law of lower-casing: it neither makes nor removes space at the ends of a word. */
  ghost predicate KeepsEnds(lower: Lowering) {
    forall s :: Trimmed(lower(s)) <==> Trimmed(s)
  }

  /** What any word at all is read as, some wording of that term is read as. */
  lemma {:induction false} NamedByAWording(lower: Lowering, vocabulary: seq<TermOffer>, word: string)
    requires KeepsEnds(lower) && SlugFor(lower, vocabulary, word).Some?
    ensures exists k, wording :: 0 <= k < |vocabulary| && wording in Wordings(vocabulary[k])
                                 && Names(lower, vocabulary, k, wording)
                                 && SlugFor(lower, vocabulary, word) == Some(vocabulary[k].slug)
  {
    var wanted := lower(Trim(word));
    FindSpec(lower, vocabulary, wanted);
    var k :| 0 <= k < |vocabulary| && vocabulary[k] == Find(lower, vocabulary, wanted).value
             && Matches(lower, vocabulary[k], wanted)
             && forall j :: 0 <= j < k ==> !Matches(lower, vocabulary[j], wanted);
    MatchesByAWording(lower, vocabulary[k], wanted);
    var i :| 0 <= i < |Wordings(vocabulary[k])| && lower(Wordings(vocabulary[k])[i]) == wanted;
    var wording := Wordings(vocabulary[k])[i];
    TrimIdempotent(word);
    TrimIdempotent(wording);
    assert Trimmed(lower(Trim(word)));
    assert Names(lower, vocabulary, k, wording);
  }

  lemma {:induction false} NamingWordIsRead(lower: Lowering, vocabulary: seq<TermOffer>, k: nat, wording: string)
    requires k < |vocabulary| && Names(lower, vocabulary, k, wording)
    ensures SlugFor(lower, vocabulary, wording) == Some(vocabulary[k].slug)
  {
    var i :| 0 <= i < |Wordings(vocabulary[k])| && Wordings(vocabulary[k])[i] == wording;
    MatchesByAWording(lower, vocabulary[k], lower(wording));
    FindSpec(lower, vocabulary, lower(wording));
  }

  ghost predicate RereadsUnchanged(lower: Lowering, vocabulary: seq<TermOffer>, words: seq<string>) {
    var tags := TagsOf(lower, vocabulary, words);
    TagsOf(lower, vocabulary, tags) == tags && UnknownOf(lower, vocabulary, tags) == []
  }

  lemma {:induction false} StableTagsReread(lower: Lowering, vocabulary: seq<TermOffer>, tags: seq<string>)
    requires NoDuplicates(tags)
    requires forall t :: t in tags ==> SlugFor(lower, vocabulary, t) == Some(t)
    ensures TagsOf(lower, vocabulary, tags) == tags && UnknownOf(lower, vocabulary, tags) == []
  {
    DistinctOfDistinct(Slugs(lower, vocabulary, tags), tags);
    DistinctOfNothing(Unknowns(lower, vocabulary, tags));
  }

  lemma {:induction false} OneWord(lower: Lowering, vocabulary: seq<TermOffer>, word: string)
    ensures TagsOf(lower, vocabulary, [word]) == if SlugFor(lower, vocabulary, word).Some?
                                                 then [SlugFor(lower, vocabulary, word).value] else []
  {
    DistinctStep(Slugs(lower, vocabulary, [word]), 0);
    assert Slugs(lower, vocabulary, [word])[..1] == Slugs(lower, vocabulary, [word]);
  }

  lemma {:induction false} RereadsIfStable(lower: Lowering, vocabulary: seq<TermOffer>, words: seq<string>)
    requires KeepsEnds(lower) && SlugsAreStable(lower, vocabulary)
    ensures RereadsUnchanged(lower, vocabulary, words)
  {
    var tags, slugs := TagsOf(lower, vocabulary, words), Slugs(lower, vocabulary, words);
    var at := DistinctSpec(slugs);
    forall t | t in tags
      ensures SlugFor(lower, vocabulary, t) == Some(t)
    {
      var i :| 0 <= i < |words| && slugs[i] == Some(t);
      NamedByAWording(lower, vocabulary, words[i]);
    }
    StableTagsReread(lower, vocabulary, tags);
  }

  /** Re-reading a suggestion's own tags gives the same tags and no unknown word, whatever the model answered,
      exactly when no term that can be named has a slug that is taken for another term, or for none. */
  lemma {:induction false} RereadIffSlugsAreStable(lower: Lowering, vocabulary: seq<TermOffer>)
    requires KeepsEnds(lower)
    ensures SlugsAreStable(lower, vocabulary) <==> forall words :: RereadsUnchanged(lower, vocabulary, words)
  {
    if SlugsAreStable(lower, vocabulary) {
      forall words
        ensures RereadsUnchanged(lower, vocabulary, words)
      {
        RereadsIfStable(lower, vocabulary, words);
      }
    }
    if forall words :: RereadsUnchanged(lower, vocabulary, words) {
      forall k, wording | 0 <= k < |vocabulary| && wording in Wordings(vocabulary[k])
          && Names(lower, vocabulary, k, wording)
        ensures SlugFor(lower, vocabulary, vocabulary[k].slug) == Some(vocabulary[k].slug)
      {
        NamingWordIsRead(lower, vocabulary, k, wording);
        OneWord(lower, vocabulary, wording);
        OneWord(lower, vocabulary, vocabulary[k].slug);
        assert RereadsUnchanged(lower, vocabulary, [wording]);
      }
    }
  }

  /** Where every slug is a trimmed word, re-reading a suggestion's own tags never makes an unknown word of one, even
      where slugs are taken for other terms. */
  lemma {:induction false} RereadingKnowsEveryTag(lower: Lowering, vocabulary: seq<TermOffer>, words: seq<string>)
    requires forall k :: 0 <= k < |vocabulary| ==> vocabulary[k].slug != "" && Trimmed(vocabulary[k].slug)
    ensures UnknownOf(lower, vocabulary, TagsOf(lower, vocabulary, words)) == []
  {
    var tags, slugs := TagsOf(lower, vocabulary, words), Slugs(lower, vocabulary, words);
    var at := DistinctSpec(slugs);
    forall i | 0 <= i < |tags|
      ensures UnknownWord(lower, vocabulary, tags[i]) == None
    {
      assert tags[i] in tags;
      var n :| 0 <= n < |words| && slugs[n] == Some(tags[i]);
      SlugForSpec(lower, vocabulary, words[n]);
      var k :| 0 <= k < |vocabulary| && vocabulary[k].slug == tags[i];
      OfferedSlugResolves(lower, vocabulary, k);
    }
    DistinctOfNothing(Unknowns(lower, vocabulary, tags));
  }

  /** A vocabulary whose slugs are trimmed words, none of them spelled like an earlier term's slug, label or
      synonym, is stable. */
  lemma {:induction false} DistinctSlugsAreStable(lower: Lowering, vocabulary: seq<TermOffer>)
    requires forall k :: 0 <= k < |vocabulary| ==> vocabulary[k].slug != "" && Trimmed(vocabulary[k].slug)
    requires forall j, k :: 0 <= j < k < |vocabulary| ==> !Matches(lower, vocabulary[j], lower(vocabulary[k].slug))
    ensures SlugsAreStable(lower, vocabulary)
  {
    forall k, wording | 0 <= k < |vocabulary| && wording in Wordings(vocabulary[k])
        && Names(lower, vocabulary, k, wording)
      ensures SlugFor(lower, vocabulary, vocabulary[k].slug) == Some(vocabulary[k].slug)
    {
      OfferedSlugResolves(lower, vocabulary, k);
    }
  }

  /** The condition is needed: a term whose slug is an earlier term's synonym is read back as the earlier term. */
  lemma {:induction false} ShadowedSlugIsMisread(lower: Lowering)
    requires lower("shoes") == "shoes" && lower("footwear") == "footwear" && lower("trainers") == "trainers"
    ensures var vocabulary := [TermOffer("footwear", "footwear", ["shoes"]), TermOffer("shoes", "trainers", [])];
            TagsOf(lower, vocabulary, ["trainers"]) == ["shoes"]
            && TagsOf(lower, vocabulary, ["shoes"]) == ["footwear"]
            && !SlugsAreStable(lower, vocabulary)
  {
    var vocabulary := [TermOffer("footwear", "footwear", ["shoes"]), TermOffer("shoes", "trainers", [])];
    assert Trimmed("trainers") && Trimmed("shoes");
    TrimIdempotent("trainers");
    TrimIdempotent("shoes");
    assert vocabulary[1..] == [TermOffer("shoes", "trainers", [])];
    assert "footwear"[0] != "trainers"[0] && "shoes"[0] != "trainers"[0] && "footwear"[0] != "shoes"[0];
    assert !Matches(lower, vocabulary[0], "trainers");
    assert Matches(lower, vocabulary[0], "shoes") by {
      assert lower(vocabulary[0].synonyms[0]) == "shoes";
    }
    assert Resolve(lower, vocabulary, "trainers") == Some(vocabulary[1]);
    assert Resolve(lower, vocabulary, "shoes") == Some(vocabulary[0]);
    OneWord(lower, vocabulary, "trainers");
    OneWord(lower, vocabulary, "shoes");
    assert vocabulary[1].labelText == Wordings(vocabulary[1])[1];
    assert Names(lower, vocabulary, 1, "trainers");
  }
}
