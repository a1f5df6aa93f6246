/** Mapping a source record onto this library's fields, and the report of what that loses
    (crates/dam-core/src/crosswalk.rs). */
module Crosswalk {
  import opened Json
  import opened Text
  import opened Wrappers

  datatype OnMiss = Keep | Drop | Fail

  datatype Transform =
    | Copy
    | Split(on: string)
    | Join(separator: string)
    | Date(format: string)
    | Translate(table: map<string, string>, onMiss: OnMiss)
    | Constant(value: Json)

  datatype Rule = Rule(source: string, target: string, transform: Transform)

  datatype Crosswalk = Crosswalk(rules: seq<Rule>, ignored: seq<string>)

  datatype FieldDef = FieldDef(key: string, multivalued: bool, readOnly: bool)

  datatype Field = Field(name: string, value: Json)

  ghost predicate DistinctNames(fields: seq<Field>) {
    forall i, j :: 0 <= i < j < |fields| ==> fields[i].name != fields[j].name
  }

  /** A source record: its fields in the order they are walked, each name once. */
  type Record = fields: seq<Field> | DistinctNames(fields) witness []

  function FieldValue(record: Record, name: string): Option<Json> {
    if record == [] then None
    else if record[0].name == name then Some(record[0].value)
    else FieldValue(record[1..], name)
  }

  /** What a warning interpolates; `Code` groups them for the report. */
  datatype Loss =
    | UnknownTarget(target: string)
    | ReadOnlyTarget(target: string)
    | TooManyParts(produced: nat, target: string)
    | TooManyMapped(target: string)
    | BadDate(text: string, format: string)
    | NoEntry(text: string)
    | Unmapped
  {
    function Code(): string {
      match this
      case UnknownTarget(_) => "unknown_target_field"
      case ReadOnlyTarget(_) => "read_only_target_field"
      case TooManyParts(_, _) => "single_valued_target"
      case TooManyMapped(_) => "single_valued_target"
      case BadDate(_, _) => "unparseable_date"
      case NoEntry(_) => "unmapped_value"
      case Unmapped => "unmapped_field"
    }
  }

  datatype Warning = Warning(source: string, loss: Loss)

  type Payload = map<string, Json>

  datatype Mapped = Mapped(payload: Payload, warnings: seq<Warning>, fatal: Option<Warning>)

  /** The two library functions the mapping calls: JSON serialisation, and date parsing with a named format. */
  datatype Codec = Codec(show: Json -> string, date: (string, string) -> Option<string>)

  // ---------- one value ----------

  predicate IsNothing(value: Json) {
    match value
    case Null => true
    case Str(s) => IsBlank(s)
    case Arr(items) => forall i :: 0 <= i < |items| ==> IsNothing(items[i])
    case _ => false
  }

  function AsText(codec: Codec, value: Json): string {
    match value
    case Str(s) => s
    case Null => ""
    case _ => codec.show(value)
  }

  function OneOrMany(value: Json, def: FieldDef): Json {
    if def.multivalued then Arr([value]) else value
  }

  /** The first place `on` occurs, or the length when it does not. */
  function FindPattern(text: string, on: string): nat
    requires on != ""
  {
    if |text| < |on| then |text|
    else if on <= text then 0
    else 1 + FindPattern(text[1..], on)
  }

  /** `str::split`: an empty pattern matches between every two characters and at both ends. */
  function SplitOn(text: string, on: string): seq<string>
    decreases |text|
  {
    if on == "" then [""] + seq(|text|, i requires 0 <= i < |text| => [text[i]]) + [""]
    else
      var i := FindPattern(text, on);
      if i + |on| > |text| then [text] else [text[..i]] + SplitOn(text[i + |on|..], on)
  }

  function TrimmedParts(parts: seq<string>): seq<Json> {
    if parts == [] then []
    else (if IsBlank(parts[0]) then [] else [Str(Trim(parts[0]))]) + TrimmedParts(parts[1..])
  }

  function NonEmptyTexts(codec: Codec, items: seq<Json>): seq<string> {
    if items == [] then []
    else
      var text := AsText(codec, items[0]);
      (if text == "" then [] else [text]) + NonEmptyTexts(codec, items[1..])
  }

  function JoinAll(texts: seq<string>, separator: string): string {
    if texts == [] then "" else if |texts| == 1 then texts[0] else texts[0] + separator + JoinAll(texts[1..], separator)
  }

  datatype Moved = Value(value: Json) | Dropped(warning: Warning) | Fatal(warning: Warning)

  function Lookup(table: map<string, string>, text: string): Option<string> {
    if Trim(text) in table then Some(table[Trim(text)]) else None
  }

  /** Translating the items of an array; an error carries the text that had no entry. */
  function TranslateItems(codec: Codec, table: map<string, string>, onMiss: OnMiss,
                          items: seq<Json>): Result<seq<Json>, string> {
    if items == [] then Ok([])
    else
      var text := AsText(codec, items[0]);
      var entry := Lookup(table, text);
      if entry.None? && onMiss.Fail? then Err(text)
      else
        var rest :- TranslateItems(codec, table, onMiss, items[1..]);
        match entry
        case Some(translated) => Ok([Str(translated)] + rest)
        case None => if onMiss.Keep? then Ok([Str(text)] + rest) else Ok(rest)
  }

  function Move(codec: Codec, rule: Rule, raw: Json, def: FieldDef): Moved {
    match rule.transform
    case Constant(value) => Value(value)
    case Copy => Value(OneOrMany(if raw.Str? then Str(Trim(raw.s)) else raw, def))
    case Split(on) =>
      var parts := TrimmedParts(SplitOn(AsText(codec, raw), on));
      if !def.multivalued && |parts| > 1 then Dropped(Warning(rule.source, TooManyParts(|parts|, rule.target)))
      else if def.multivalued then Value(Arr(parts))
      else Value(if parts == [] then Null else parts[0])
    case Join(separator) =>
      Value(Str(if raw.Arr? then JoinAll(NonEmptyTexts(codec, raw.items), separator) else AsText(codec, raw)))
    case Date(format) =>
      var text := AsText(codec, raw);
      (match codec.date(Trim(text), format)
       case Some(date) => Value(Str(date))
       case None => Dropped(Warning(rule.source, BadDate(text, format))))
    case Translate(table, onMiss) =>
      if raw.Arr? then
        match TranslateItems(codec, table, onMiss, raw.items)
        case Err(text) => Fatal(Warning(rule.source, NoEntry(text)))
        case Ok(values) =>
          if def.multivalued then Value(Arr(values))
          else if |values| > 1 then Dropped(Warning(rule.source, TooManyMapped(rule.target)))
          else Value(if values == [] then Null else values[0])
      else
        var text := AsText(codec, raw);
        match Lookup(table, text)
        case Some(translated) => Value(OneOrMany(Str(translated), def))
        case None =>
          match onMiss
          case Keep => Value(OneOrMany(Str(text), def))
          case Drop => Dropped(Warning(rule.source, NoEntry(text)))
          case Fail => Fatal(Warning(rule.source, NoEntry(text)))
  }

  // ---------- one record ----------

  function DefFor(defs: seq<FieldDef>, key: string): Option<FieldDef> {
    if defs == [] then None else if defs[0].key == key then Some(defs[0]) else DefFor(defs[1..], key)
  }

  /** What one rule does to a record: nothing, a warning, a value, or the end of the record. */
  datatype Effect = Nothing | Write(value: Json) | Warn(warning: Warning) | Stop(warning: Warning)

  function EffectOf(codec: Codec, defs: seq<FieldDef>, record: Record, rule: Rule): Effect {
    match DefFor(defs, rule.target)
    case None => Warn(Warning(rule.source, UnknownTarget(rule.target)))
    case Some(def) =>
      if def.readOnly then Warn(Warning(rule.source, ReadOnlyTarget(rule.target)))
      else if rule.transform.Constant? then Write(rule.transform.value)
      else match FieldValue(record, rule.source)
        case None => Nothing
        case Some(raw) =>
          if IsNothing(raw) then Nothing
          else match Move(codec, rule, raw, def)
            case Value(value) => Write(value)
            case Dropped(warning) => Warn(warning)
            case Fatal(warning) => Stop(warning)
  }

  function Affect(mapped: Mapped, target: string, effect: Effect): Mapped {
    match effect
    case Nothing => mapped
    case Write(value) => mapped.(payload := mapped.payload[target := value])
    case Warn(warning) => mapped.(warnings := mapped.warnings + [warning])
    case Stop(warning) => mapped.(fatal := Some(warning))
  }

  ghost function ApplyRules(codec: Codec, defs: seq<FieldDef>, record: Record, rules: seq<Rule>,
                            mapped: Mapped): Mapped {
    if rules == [] then mapped
    else
      var next := Affect(mapped, rules[0].target, EffectOf(codec, defs, record, rules[0]));
      if next.fatal.Some? then next else ApplyRules(codec, defs, record, rules[1..], next)
  }

  predicate Mentions(rules: seq<Rule>, name: string) {
    exists i :: 0 <= i < |rules| && rules[i].source == name
  }

  predicate GoesNowhere(crosswalk: Crosswalk, field: Field) {
    !IsNothing(field.value) && field.name !in crosswalk.ignored && !Mentions(crosswalk.rules, field.name)
  }

  ghost function UnmappedWarnings(crosswalk: Crosswalk, fields: seq<Field>): seq<Warning> {
    if fields == [] then []
    else (if GoesNowhere(crosswalk, fields[0]) then [Warning(fields[0].name, Unmapped)] else [])
         + UnmappedWarnings(crosswalk, fields[1..])
  }

  const NOTHING_MAPPED: Mapped := Mapped(map[], [], None)

  ghost function Apply(codec: Codec, crosswalk: Crosswalk, record: Record, defs: seq<FieldDef>): Mapped {
    var mapped := ApplyRules(codec, defs, record, crosswalk.rules, NOTHING_MAPPED);
    if mapped.fatal.Some? then mapped
    else mapped.(warnings := mapped.warnings + UnmappedWarnings(crosswalk, record))
  }

  method MapRecord(codec: Codec, crosswalk: Crosswalk, record: Record, defs: seq<FieldDef>) returns (out: Mapped)
    ensures out == Apply(codec, crosswalk, record, defs)
  {
    out := NOTHING_MAPPED;
    for i := 0 to |crosswalk.rules|
      invariant out.fatal.None?
      invariant ApplyRules(codec, defs, record, crosswalk.rules, NOTHING_MAPPED)
             == ApplyRules(codec, defs, record, crosswalk.rules[i..], out)
    {
      assert crosswalk.rules[i..][1..] == crosswalk.rules[i + 1..];
      var rule := crosswalk.rules[i];
      out := Affect(out, rule.target, EffectOf(codec, defs, record, rule));
      if out.fatal.Some? {
        return;
      }
    }
    ghost var ruled := out.warnings;
    for i := 0 to |record|
      invariant out.fatal.None?
      invariant out.payload == ApplyRules(codec, defs, record, crosswalk.rules, NOTHING_MAPPED).payload
      invariant out.warnings + UnmappedWarnings(crosswalk, record[i..]) == ruled + UnmappedWarnings(crosswalk, record)
    {
      assert record[i..][1..] == record[i + 1..];
      if GoesNowhere(crosswalk, record[i]) {
        out := out.(warnings := out.warnings + [Warning(record[i].name, Unmapped)]);
      }
    }
  }

  /** The id column names the record, so it is not a loss: both passes add it to the ignored list. */
  function IgnoringId(crosswalk: Crosswalk, idField: string): Crosswalk {
    if idField in crosswalk.ignored then crosswalk else crosswalk.(ignored := crosswalk.ignored + [idField])
  }
}
