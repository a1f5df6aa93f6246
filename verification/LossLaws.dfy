/** "Every loss is named, and losing quietly is the one thing forbidden": exactly when a crosswalk loses a value it
    was handed without saying so, and which crosswalks never do (crates/dam-core/src/crosswalk.rs). */
module LossLaws {
  import opened Crosswalk
  import opened CrosswalkLaws
  import opened Json
  import opened Text
  import opened Wrappers

  /** The laws of the two library functions that are used here: JSON text is never blank, nor is a date. */
  ghost predicate WritesSomething(codec: Codec) {
    && (forall value :: !IsBlank(codec.show(value)))
    && (forall text, format :: codec.date(text, format).Some? ==> !IsBlank(codec.date(text, format).value))
  }

  // ---------- one item of an array ----------

  /** An item makes no difference: the rule would have done the same without it. */
  ghost predicate ItemIsLost(codec: Codec, rule: Rule, items: seq<Json>, def: FieldDef, i: nat)
    requires i < |items|
  {
    Move(codec, rule, Arr(items), def) == Move(codec, rule, Arr(items[..i] + items[i + 1..]), def)
  }

  /** Copying, joining and translating take an array item by item; splitting and dating read it as one text. */
  predicate TakesItems(rule: Rule) {
    rule.transform.Copy? || rule.transform.Join? || rule.transform.Translate?
  }

  /** A table that drops what it has no entry for, and an item it has no entry for. */
  predicate DropsItem(codec: Codec, rule: Rule, item: Json) {
    rule.transform.Translate? && rule.transform.onMiss.Drop? && Lookup(rule.transform.table, AsText(codec, item)).None?
  }

  lemma {:induction false} TextsOfBoth(codec: Codec, xs: seq<Json>, ys: seq<Json>)
    ensures NonEmptyTexts(codec, xs + ys) == NonEmptyTexts(codec, xs) + NonEmptyTexts(codec, ys)
  {
    if xs == [] {
      assert xs + ys == ys;
    } else {
      assert (xs + ys)[1..] == xs[1..] + ys;
      TextsOfBoth(codec, xs[1..], ys);
    }
  }

  lemma {:induction false} JoiningMoreIsLonger(xs: seq<string>, text: string, ys: seq<string>, separator: string)
    requires text != ""
    ensures |JoinAll(xs + ys, separator)| < |JoinAll(xs + [text] + ys, separator)|
  {
    if xs == [] {
      assert xs + ys == ys && xs + [text] + ys == [text] + ys && ([text] + ys)[1..] == ys;
    } else {
      assert (xs + ys)[1..] == xs[1..] + ys && (xs + [text] + ys)[1..] == xs[1..] + [text] + ys;
      JoiningMoreIsLonger(xs[1..], text, ys, separator);
    }
  }

  lemma {:induction false} CarriedHasText(codec: Codec, value: Json)
    requires WritesSomething(codec) && !IsNothing(value)
    ensures !IsBlank(AsText(codec, value))
  {
  }

  lemma {:induction false} JoinKeepsItem(codec: Codec, items: seq<Json>, i: nat, separator: string)
    requires WritesSomething(codec) && i < |items| && !IsNothing(items[i])
    ensures JoinAll(NonEmptyTexts(codec, items), separator)
            != JoinAll(NonEmptyTexts(codec, items[..i] + items[i + 1..]), separator)
  {
    var xs, ys := items[..i], items[i + 1..];
    CarriedHasText(codec, items[i]);
    assert items == xs + ([items[i]] + ys) && ([items[i]] + ys)[1..] == ys;
    TextsOfBoth(codec, xs, [items[i]] + ys);
    TextsOfBoth(codec, xs, ys);
    var text := AsText(codec, items[i]);
    assert NonEmptyTexts(codec, items) == NonEmptyTexts(codec, xs) + [text] + NonEmptyTexts(codec, ys);
    JoiningMoreIsLonger(NonEmptyTexts(codec, xs), text, NonEmptyTexts(codec, ys), separator);
  }

  /** Without one of its items an array translates to the same, if that item was dropped, and otherwise to one fewer. */
  lemma {:induction false} TranslatedWithout(codec: Codec, table: map<string, string>, onMiss: OnMiss,
                                             items: seq<Json>, i: nat)
    requires i < |items| && TranslateItems(codec, table, onMiss, items).Ok?
    ensures var all, fewer := TranslateItems(codec, table, onMiss, items),
                              TranslateItems(codec, table, onMiss, items[..i] + items[i + 1..]);
            && fewer.Ok?
            && if onMiss.Drop? && Lookup(table, AsText(codec, items[i])).None? then fewer == all
               else |fewer.value| + 1 == |all.value|
  {
    var fewer := items[..i] + items[i + 1..];
    if i == 0 {
      assert fewer == items[1..];
    } else {
      assert fewer[0] == items[0] && fewer[1..] == items[1..][..i - 1] + items[1..][i..];
      TranslatedWithout(codec, table, onMiss, items[1..], i - 1);
    }
  }

  lemma {:induction false} ItemsAreText(codec: Codec, table: map<string, string>, onMiss: OnMiss, items: seq<Json>)
    ensures TranslateItems(codec, table, onMiss, items).Ok?
            ==> forall v :: v in TranslateItems(codec, table, onMiss, items).value ==> v.Str?
  {
    if items != [] {
      ItemsAreText(codec, table, onMiss, items[1..]);
    }
  }

  /** Of the items of an array that carry something, a written value has lost exactly those a drop-on-miss table has
      no entry for. The same word alone in its cell is reported. */
  lemma {:induction false} ItemIsLostIff(codec: Codec, rule: Rule, items: seq<Json>, def: FieldDef, i: nat)
    requires WritesSomething(codec) && i < |items| && !IsNothing(items[i])
    requires TakesItems(rule) && Move(codec, rule, Arr(items), def).Value?
    ensures ItemIsLost(codec, rule, items, def, i) <==> DropsItem(codec, rule, items[i])
  {
    match rule.transform
    case Copy => assert |items[..i] + items[i + 1..]| < |items|;
    case Join(separator) => JoinKeepsItem(codec, items, i, separator);
    case Translate(table, onMiss) =>
      TranslatedWithout(codec, table, onMiss, items, i);
      ItemsAreText(codec, table, onMiss, items);
      var values := TranslateItems(codec, table, onMiss, items).value;
      assert values != [] ==> values[0] in values;
  }

  // ---------- one field of a record ----------

  ghost predicate Named(warnings: seq<Warning>, name: string) {
    exists i :: 0 <= i < |warnings| && warnings[i].source == name
  }

  predicate MayWrite(defs: seq<FieldDef>, rule: Rule) {
    DefFor(defs, rule.target).Some? && !DefFor(defs, rule.target).value.readOnly
  }

  /** No item that carries something is lost from a value taken item by item. */
  ghost predicate KeepsItems(codec: Codec, rule: Rule, raw: Json, def: FieldDef) {
    raw.Arr? && TakesItems(rule)
    ==> forall i :: 0 <= i < |raw.items| && !IsNothing(raw.items[i]) ==> !ItemIsLost(codec, rule, raw.items, def, i)
  }

  /** A payload holds what a rule makes of a source value, which is something, and all of it. */
  ghost predicate Brought(codec: Codec, defs: seq<FieldDef>, rule: Rule, raw: Json, payload: Payload) {
    && MayWrite(defs, rule) && !rule.transform.Constant?
    && var def := DefFor(defs, rule.target).value;
       var moved := Move(codec, rule, raw, def);
       moved.Value? && !IsNothing(moved.value) && KeepsItems(codec, rule, raw, def)
       && HeldIn(payload, rule.target) == Some(moved.value)
  }

  /** A field is named in what is said of a record: in a warning, or as what refused it. */
  ghost predicate NamedBy(mapped: Mapped, name: string) {
    Named(mapped.warnings, name) || (mapped.fatal.Some? && mapped.fatal.value.source == name)
  }

  /** A field carried something that nobody decided against, and nothing said of the record names it, and no rule the
      record was put through brought it to the payload. */
  ghost predicate LostQuietly(codec: Codec, crosswalk: Crosswalk, record: Record, defs: seq<FieldDef>, field: Field) {
    var mapped, heeded := Apply(codec, crosswalk, record, defs), Heeded(codec, defs, record, crosswalk.rules);
    && !IsNothing(field.value) && field.name !in crosswalk.ignored
    && !NamedBy(mapped, field.name)
    && !exists i :: 0 <= i < |heeded| && heeded[i].source == field.name
                    && Brought(codec, defs, heeded[i], field.value, mapped.payload)
  }

  /** How a rule comes to lose the value it was given and say nothing: it is a constant, and ignores its source; or
      another rule writes its target after it; or it writes nothing, out of a text of mere separators or a table of
      blanks; or it drops items. */
  ghost predicate LosesIt(codec: Codec, defs: seq<FieldDef>, record: Record, rules: seq<Rule>, rule: Rule, raw: Json) {
    && MayWrite(defs, rule)
    && (rule.transform.Constant?
        || var moved := Move(codec, rule, raw, DefFor(defs, rule.target).value);
           && moved.Value?
           && (LastWritten(codec, defs, record, rules, rule.target) != Some(moved.value)
               || IsNothing(moved.value)
               || (raw.Arr? && exists i :: 0 <= i < |raw.items| && !IsNothing(raw.items[i])
                                           && DropsItem(codec, rule, raw.items[i]))))
  }

  lemma {:induction false} FieldIsFound(record: Record, k: nat)
    requires k < |record|
    ensures FieldValue(record, record[k].name) == Some(record[k].value)
  {
    if k > 0 {
      FieldIsFound(record[1..], k - 1);
    }
  }

  lemma {:induction false} NamedInBoth(xs: seq<Warning>, ys: seq<Warning>, name: string)
    ensures Named(xs + ys, name) <==> Named(xs, name) || Named(ys, name)
  {
    if i :| 0 <= i < |xs| && xs[i].source == name {
      assert (xs + ys)[i].source == name;
    }
    if i :| 0 <= i < |ys| && ys[i].source == name {
      assert (xs + ys)[|xs| + i].source == name;
    }
  }

  ghost predicate SomeRuleWarns(codec: Codec, defs: seq<FieldDef>, record: Record, rules: seq<Rule>, name: string) {
    exists i :: 0 <= i < |rules| && rules[i].source == name && EffectOf(codec, defs, record, rules[i]).Warn?
  }

  lemma {:induction false} WarnsFirstOrLater(codec: Codec, defs: seq<FieldDef>, record: Record, rules: seq<Rule>,
                                             name: string)
    requires rules != []
    ensures SomeRuleWarns(codec, defs, record, rules, name)
            <==> (rules[0].source == name && EffectOf(codec, defs, record, rules[0]).Warn?)
                 || SomeRuleWarns(codec, defs, record, rules[1..], name)
  {
    assert forall i :: 0 <= i < |rules[1..]| ==> rules[1..][i] == rules[i + 1];
    if i :| 0 <= i < |rules| && rules[i].source == name && EffectOf(codec, defs, record, rules[i]).Warn? {
      assert i > 0 ==> rules[1..][i - 1] == rules[i];
    }
  }

  lemma {:induction false} RulesName(codec: Codec, defs: seq<FieldDef>, record: Record, rules: seq<Rule>,
                                     mapped: Mapped, name: string)
    requires ApplyRules(codec, defs, record, rules, mapped).fatal.None?
    ensures Named(ApplyRules(codec, defs, record, rules, mapped).warnings, name)
            <==> Named(mapped.warnings, name) || SomeRuleWarns(codec, defs, record, rules, name)
  {
    if rules != [] {
      var effect := EffectOf(codec, defs, record, rules[0]);
      var next := Affect(mapped, rules[0].target, effect);
      RulesName(codec, defs, record, rules[1..], next, name);
      WarnsFirstOrLater(codec, defs, record, rules, name);
      if effect.Warn? {
        NamedInBoth(mapped.warnings, [effect.warning], name);
        assert [effect.warning][0].source == rules[0].source;
      }
    }
  }

  lemma {:induction false} UnmappedNames(crosswalk: Crosswalk, fields: seq<Field>, name: string)
    ensures Named(UnmappedWarnings(crosswalk, fields), name)
            <==> exists i :: 0 <= i < |fields| && fields[i].name == name && GoesNowhere(crosswalk, fields[i])
  {
    if fields != [] {
      var rest := fields[1..];
      var here := if GoesNowhere(crosswalk, fields[0]) then [Warning(fields[0].name, Unmapped)] else [];
      UnmappedNames(crosswalk, rest, name);
      NamedInBoth(here, UnmappedWarnings(crosswalk, rest), name);
      assert forall i :: 0 <= i < |rest| ==> rest[i] == fields[i + 1];
      if i :| 0 <= i < |fields| && fields[i].name == name && GoesNowhere(crosswalk, fields[i]) {
        assert i > 0 ==> rest[i - 1] == fields[i];
        assert i == 0 ==> here[0].source == name;
      }
    }
  }

  /** A field is named in a warning exactly when a rule that reads it warns, of those the record was put through, or,
      if it was not refused, when no rule reads it and nobody decided against it. */
  lemma {:induction false} FieldIsNamedIff(codec: Codec, crosswalk: Crosswalk, record: Record, defs: seq<FieldDef>,
                                           k: nat)
    requires k < |record|
    ensures var mapped, heeded := Apply(codec, crosswalk, record, defs), Heeded(codec, defs, record, crosswalk.rules);
            Named(mapped.warnings, record[k].name)
            <==> SomeRuleWarns(codec, defs, record, heeded, record[k].name)
                 || (mapped.fatal.None? && GoesNowhere(crosswalk, record[k]))
  {
    var name := record[k].name;
    var heeded := Heeded(codec, defs, record, crosswalk.rules);
    var ruled := ApplyRules(codec, defs, record, crosswalk.rules, NOTHING_MAPPED);
    RefusalCutsShort(codec, defs, record, crosswalk.rules, NOTHING_MAPPED);
    RulesName(codec, defs, record, heeded, NOTHING_MAPPED, name);
    UnmappedNames(crosswalk, record, name);
    NamedInBoth(ruled.warnings, UnmappedWarnings(crosswalk, record), name);
    assert forall i :: 0 <= i < |record| && record[i].name == name ==> i == k;
  }

  /** For a value that carries something, a rule that neither warns nor refuses loses it, or has brought it. */
  lemma {:induction false} BroughtOrLost(codec: Codec, defs: seq<FieldDef>, record: Record, rules: seq<Rule>,
                                         rule: Rule, raw: Json, payload: Payload)
    requires WritesSomething(codec)
             && HeldIn(payload, rule.target) == LastWritten(codec, defs, record, rules, rule.target)
    requires FieldValue(record, rule.source) == Some(raw) && !IsNothing(raw)
    requires !EffectOf(codec, defs, record, rule).Stop?
    ensures if EffectOf(codec, defs, record, rule).Warn? then !LosesIt(codec, defs, record, rules, rule, raw)
            else Brought(codec, defs, rule, raw, payload) <==> !LosesIt(codec, defs, record, rules, rule, raw)
  {
    if !rule.transform.Constant? && !EffectOf(codec, defs, record, rule).Warn? {
      var def := DefFor(defs, rule.target).value;
      if raw.Arr? {
        forall i | 0 <= i < |raw.items| && !IsNothing(raw.items[i]) && TakesItems(rule)
          ensures ItemIsLost(codec, rule, raw.items, def, i) <==> DropsItem(codec, rule, raw.items[i])
        {
          ItemIsLostIff(codec, rule, raw.items, def, i);
        }
      }
    }
  }

  /** Every rule a record was put through that reads a field loses it. */
  ghost predicate AllLoseIt(codec: Codec, defs: seq<FieldDef>, record: Record, heeded: seq<Rule>, field: Field) {
    forall i :: 0 <= i < |heeded| && heeded[i].source == field.name
                ==> LosesIt(codec, defs, record, heeded, heeded[i], field.value)
  }

  /** Losing quietly is meant to be impossible. Of any record, a field that carries something nobody decided against
      is lost without a word exactly when every rule that reads it, of those the record was put through, loses it: a
      constant; a rule whose target another writes later; one that writes nothing; one that drops items of an array.
      Where the record is not refused some rule must read it, or it would be named as unmapped; where it is, the
      refusal must be another field's, and then no rule need have read it at all. */
  lemma {:induction false} FieldIsLostQuietlyIff(codec: Codec, crosswalk: Crosswalk, record: Record,
                                                 defs: seq<FieldDef>, k: nat)
    requires WritesSomething(codec) && k < |record|
    requires !IsNothing(record[k].value) && record[k].name !in crosswalk.ignored
    ensures var mapped, heeded := Apply(codec, crosswalk, record, defs), Heeded(codec, defs, record, crosswalk.rules);
            LostQuietly(codec, crosswalk, record, defs, record[k])
            <==> && AllLoseIt(codec, defs, record, heeded, record[k])
                 && match mapped.fatal
                    case None => Mentions(crosswalk.rules, record[k].name)
                    case Some(refusal) => refusal.source != record[k].name
  {
    var heeded, raw := Heeded(codec, defs, record, crosswalk.rules), record[k].value;
    var payload := Apply(codec, crosswalk, record, defs).payload;
    FieldIsFound(record, k);
    FieldIsNamedIff(codec, crosswalk, record, defs, k);
    HeededSpec(codec, defs, record, crosswalk.rules);
    forall i | 0 <= i < |heeded| && heeded[i].source == record[k].name
      ensures EffectOf(codec, defs, record, heeded[i]).Warn? ==> !LosesIt(codec, defs, record, heeded, heeded[i], raw)
      ensures !EffectOf(codec, defs, record, heeded[i]).Warn?
              ==> (Brought(codec, defs, heeded[i], raw, payload)
                   <==> !LosesIt(codec, defs, record, heeded, heeded[i], raw))
    {
      PayloadIsTheLastWrite(codec, crosswalk, record, defs, heeded[i].target, "");
      BroughtOrLost(codec, defs, record, heeded, heeded[i], raw, payload);
    }
  }

  // ---------- crosswalks that lose nothing quietly ----------

  /** A rule that brings whatever it is given, or says why not. */
  predicate Faithful(rule: Rule) {
    match rule.transform
    case Copy => true
    case Join(_) => true
    case Date(_) => true
    case Translate(table, onMiss) => !onMiss.Drop? && forall word :: word in table ==> !IsBlank(table[word])
    case Split(_) => false
    case Constant(_) => false
  }

  /** Every field that is read is read by a faithful rule that has its target to itself. */
  predicate IsCareful(rules: seq<Rule>) {
    forall i :: 0 <= i < |rules| ==> IsReadCarefully(rules, i)
  }

  predicate IsReadCarefully(rules: seq<Rule>, i: nat)
    requires i < |rules|
  {
    exists j :: 0 <= j < |rules| && rules[j].source == rules[i].source && HasItsTarget(rules, j)
  }

  /** A faithful rule with its target to itself. */
  predicate HasItsTarget(rules: seq<Rule>, j: nat)
    requires j < |rules|
  {
    Faithful(rules[j]) && forall k :: 0 <= k < |rules| && k != j ==> rules[k].target != rules[j].target
  }

  lemma {:induction false} TranslatesCarried(codec: Codec, table: map<string, string>, onMiss: OnMiss, items: seq<Json>)
    requires WritesSomething(codec) && !onMiss.Drop? && forall word :: word in table ==> !IsBlank(table[word])
    requires TranslateItems(codec, table, onMiss, items).Ok?
    ensures var values := TranslateItems(codec, table, onMiss, items).value;
            |values| == |items| && forall i :: 0 <= i < |items| && !IsNothing(items[i]) ==> !IsNothing(values[i])
  {
    if items != [] {
      TranslatesCarried(codec, table, onMiss, items[1..]);
      if !IsNothing(items[0]) {
        CarriedHasText(codec, items[0]);
      }
    }
  }

  lemma {:induction false} BlankTogether(s: string, t: string)
    ensures IsBlank(s + t) <==> IsBlank(s) && IsBlank(t)
  {
    BlankIsAllSpaces(s);
    BlankIsAllSpaces(t);
    BlankIsAllSpaces(s + t);
    AllSpaces(s);
    AllSpaces(t);
    AllSpaces(s + t);
    if IsBlank(s + t) {
      assert forall i :: 0 <= i < |s| ==> s[i] == (s + t)[i];
      assert forall i :: 0 <= i < |t| ==> t[i] == (s + t)[|s| + i];
    }
  }

  lemma {:induction false} JoinsCarried(codec: Codec, items: seq<Json>, separator: string)
    requires WritesSomething(codec) && IsBlank(JoinAll(NonEmptyTexts(codec, items), separator))
    ensures IsNothing(Arr(items))
  {
    if items != [] {
      var text, rest := AsText(codec, items[0]), NonEmptyTexts(codec, items[1..]);
      if text == "" {
        assert NonEmptyTexts(codec, items) == rest;
      } else {
        assert NonEmptyTexts(codec, items) == [text] + rest && ([text] + rest)[1..] == rest;
        if rest != [] {
          BlankTogether(text + separator, JoinAll(rest, separator));
          BlankTogether(text, separator);
        }
      }
      JoinsCarried(codec, items[1..], separator);
      if !IsNothing(items[0]) {
        CarriedHasText(codec, items[0]);
      }
    }
  }

  lemma {:induction false} WrappingKeeps(value: Json, def: FieldDef)
    requires !IsNothing(value)
    ensures !IsNothing(OneOrMany(value, def))
  {
    assert def.multivalued ==> OneOrMany(value, def).items[0] == value;
  }

  lemma {:induction false} FaithfulWrites(codec: Codec, rule: Rule, raw: Json, def: FieldDef)
    requires WritesSomething(codec) && Faithful(rule) && !IsNothing(raw)
    requires Move(codec, rule, raw, def).Value?
    ensures !IsNothing(Move(codec, rule, raw, def).value)
  {
    CarriedHasText(codec, raw);
    match rule.transform
    case Copy =>
      if raw.Str? {
        TrimIdempotent(raw.s);
      }
      WrappingKeeps(if raw.Str? then Str(Trim(raw.s)) else raw, def);
    case Join(separator) =>
      if raw.Arr? && IsBlank(JoinAll(NonEmptyTexts(codec, raw.items), separator)) {
        JoinsCarried(codec, raw.items, separator);
      }
    case Translate(table, onMiss) =>
      if raw.Arr? {
        TranslatesCarried(codec, table, onMiss, raw.items);
      } else {
        WrappingKeeps(Str(Lookup(table, AsText(codec, raw)).GetOr(AsText(codec, raw))), def);
      }
    case _ =>
  }

  lemma {:induction false} LastToItself(codec: Codec, defs: seq<FieldDef>, record: Record, rules: seq<Rule>, j: nat)
    requires j < |rules| && forall k :: 0 <= k < |rules| && k != j ==> rules[k].target != rules[j].target
    ensures LastWritten(codec, defs, record, rules, rules[j].target) == Written(codec, defs, record, rules[j])
  {
    var rest := rules[1..];
    assert forall k :: 0 <= k < |rest| ==> rest[k] == rules[k + 1];
    if j > 0 {
      LastToItself(codec, defs, record, rest, j - 1);
    } else {
      NobodyWrites(codec, defs, record, rest, rules[0].target);
    }
  }

  lemma {:induction false} NobodyWrites(codec: Codec, defs: seq<FieldDef>, record: Record, rules: seq<Rule>,
                                        key: string)
    requires forall k :: 0 <= k < |rules| ==> rules[k].target != key
    ensures LastWritten(codec, defs, record, rules, key) == None
  {
    if rules != [] {
      NobodyWrites(codec, defs, record, rules[1..], key);
    }
  }

  lemma {:induction false} FaithfulLosesNothing(codec: Codec, defs: seq<FieldDef>, record: Record, rules: seq<Rule>,
                                                j: nat, raw: Json)
    requires WritesSomething(codec) && !IsNothing(raw)
    requires j < |rules| && FieldValue(record, rules[j].source) == Some(raw) && HasItsTarget(rules, j)
    ensures !LosesIt(codec, defs, record, rules, rules[j], raw)
  {
    LastToItself(codec, defs, record, rules, j);
    if LosesIt(codec, defs, record, rules, rules[j], raw) {
      FaithfulWrites(codec, rules[j], raw, DefFor(defs, rules[j].target).value);
      assert false;
    }
  }

  lemma {:induction false} SomeReadingIsCareful(rules: seq<Rule>, name: string)
    requires IsCareful(rules)
    ensures Mentions(rules, name) ==> exists j :: 0 <= j < |rules| && rules[j].source == name && HasItsTarget(rules, j)
  {
    if i :| 0 <= i < |rules| && rules[i].source == name {
      assert IsReadCarefully(rules, i);
    }
  }

  /** A careful crosswalk loses nothing quietly of a record it does not refuse: whatever it carries that nobody decided
      against is in the payload, whole, or in a warning. Of a record it refuses it loses quietly only what no careful
      reading came to. A careful crosswalk that can refuse nothing loses nothing quietly of any record. */
  lemma {:induction false} CarefulLosesNothingQuietly(codec: Codec, crosswalk: Crosswalk, record: Record,
                                                      defs: seq<FieldDef>, k: nat)
    requires WritesSomething(codec) && IsCareful(crosswalk.rules) && k < |record|
    ensures LostQuietly(codec, crosswalk, record, defs, record[k])
            ==> && Apply(codec, crosswalk, record, defs).fatal.Some?
                && var heeded := Heeded(codec, defs, record, crosswalk.rules);
                   forall j :: 0 <= j < |heeded| && heeded[j].source == record[k].name
                               ==> !HasItsTarget(crosswalk.rules, j)
    ensures (forall rule :: rule in crosswalk.rules ==> !CanRefuse(defs, rule))
            ==> !LostQuietly(codec, crosswalk, record, defs, record[k])
  {
    var rules, heeded, name := crosswalk.rules, Heeded(codec, defs, record, crosswalk.rules), record[k].name;
    if LostQuietly(codec, crosswalk, record, defs, record[k]) {
      FieldIsLostQuietlyIff(codec, crosswalk, record, defs, k);
      FieldIsFound(record, k);
      HeededSpec(codec, defs, record, rules);
      RefusalCutsShort(codec, defs, record, rules, NOTHING_MAPPED);
      forall j | 0 <= j < |heeded| && heeded[j].source == name
        ensures !HasItsTarget(rules, j)
      {
        if HasItsTarget(rules, j) {
          FaithfulLosesNothing(codec, defs, record, heeded, j, record[k].value);
          assert false;
        }
      }
      SomeReadingIsCareful(rules, name);
      if Apply(codec, crosswalk, record, defs).fatal.Some? {
        var rule := RefusedByARule(codec, defs, record, rules, NOTHING_MAPPED);
      }
    }
  }

  /** What a refusal costs a crosswalk all of whose rules are faithful and have their targets to themselves: exactly
      the fields that only later rules read or no rule does. The refusal names one field, and of the others that
      carry something nothing says that they were not looked at. */
  lemma {:induction false} RefusalLosesTheRest(codec: Codec, crosswalk: Crosswalk, record: Record,
                                               defs: seq<FieldDef>, k: nat)
    requires WritesSomething(codec) && k < |record|
    requires forall j :: 0 <= j < |crosswalk.rules| ==> HasItsTarget(crosswalk.rules, j)
    requires !IsNothing(record[k].value) && record[k].name !in crosswalk.ignored
    ensures var mapped := Apply(codec, crosswalk, record, defs);
            LostQuietly(codec, crosswalk, record, defs, record[k])
            <==> && mapped.fatal.Some? && mapped.fatal.value.source != record[k].name
                 && !Mentions(Heeded(codec, defs, record, crosswalk.rules), record[k].name)
  {
    var rules, heeded, name := crosswalk.rules, Heeded(codec, defs, record, crosswalk.rules), record[k].name;
    FieldIsLostQuietlyIff(codec, crosswalk, record, defs, k);
    FieldIsFound(record, k);
    HeededSpec(codec, defs, record, rules);
    RefusalCutsShort(codec, defs, record, rules, NOTHING_MAPPED);
    if j :| 0 <= j < |heeded| && heeded[j].source == name {
      assert HasItsTarget(rules, j);
      FaithfulLosesNothing(codec, defs, record, heeded, j, record[k].value);
      assert !AllLoseIt(codec, defs, record, heeded, record[k]);
    }
  }

  function Copied(value: Json): Json {
    if value.Str? then Str(Trim(value.s)) else value
  }

  lemma {:induction false} SecondColumnWins(codec: Codec, one: Field, other: Field, def: FieldDef)
    requires one.name != other.name && !def.readOnly && !IsNothing(other.value)
    ensures LastWritten(codec, [def], [one, other], [Rule(one.name, def.key, Copy), Rule(other.name, def.key, Copy)],
                        def.key)
            == Some(OneOrMany(Copied(other.value), def))
  {
    var first, second := Rule(one.name, def.key, Copy), Rule(other.name, def.key, Copy);
    var record: Record := [one, other];
    assert record[1..] == [other];
    assert FieldValue(record, other.name) == Some(other.value);
    assert Written(codec, [def], record, second) == Some(OneOrMany(Copied(other.value), def));
    assert [first, second][1..] == [second] && [second][1..] == [];
    assert LastWritten(codec, [def], record, [second], def.key) == Written(codec, [def], record, second);
  }

  /** Two columns copied to one field, and no table anywhere: where both hold something, and not the same, the first
      is lost without a word. */
  lemma {:induction false} TwoColumnsOneField(codec: Codec, one: Field, other: Field, def: FieldDef)
    requires WritesSomething(codec) && one.name != other.name && !def.readOnly
    requires !IsNothing(one.value) && !IsNothing(other.value) && Copied(one.value) != Copied(other.value)
    ensures var crosswalk := Crosswalk([Rule(one.name, def.key, Copy), Rule(other.name, def.key, Copy)], []);
            LostQuietly(codec, crosswalk, [one, other], [def], one)
  {
    var rules := [Rule(one.name, def.key, Copy), Rule(other.name, def.key, Copy)];
    var record: Record := [one, other];
    if Apply(codec, Crosswalk(rules, []), record, [def]).fatal.Some? {
      var rule := RefusedByARule(codec, [def], record, rules, NOTHING_MAPPED);
      assert false;
    }
    RefusalCutsShort(codec, [def], record, rules, NOTHING_MAPPED);
    SecondColumnWins(codec, one, other, def);
    assert Move(codec, rules[0], one.value, def) == Value(OneOrMany(Copied(one.value), def));
    assert OneOrMany(Copied(one.value), def) != OneOrMany(Copied(other.value), def) by {
      assert def.multivalued ==> OneOrMany(Copied(one.value), def).items[0] == Copied(one.value);
    }
    assert LosesIt(codec, [def], record, rules, rules[0], one.value);
    assert AllLoseIt(codec, [def], record, rules, one);
    assert rules[0].source == one.name;
    FieldIsLostQuietlyIff(codec, Crosswalk(rules, []), record, [def], 0);
  }
}
