/** What a crosswalk guarantees about a record, and where its promises stop. */
module CrosswalkLaws {
  import opened Crosswalk
  import opened Json
  import opened Text
  import opened Wrappers

  // ---------- what ends up in each field ----------

  /** What a rule writes for a record, if it writes. */
  ghost function Written(codec: Codec, defs: seq<FieldDef>, record: Record, rule: Rule): Option<Json> {
    match EffectOf(codec, defs, record, rule)
    case Write(value) => Some(value)
    case _ => None
  }

  /** The reference: a field holds what the last rule aimed at it wrote. */
  ghost function LastWritten(codec: Codec, defs: seq<FieldDef>, record: Record, rules: seq<Rule>,
                             key: string): Option<Json> {
    if rules == [] then None
    else
      var later := LastWritten(codec, defs, record, rules[1..], key);
      if later.Some? then later
      else if rules[0].target == key then Written(codec, defs, record, rules[0])
      else None
  }

  lemma {:induction false} RulesWriteLast(codec: Codec, defs: seq<FieldDef>, record: Record, rules: seq<Rule>,
      mapped: Mapped, key: string)
    requires ApplyRules(codec, defs, record, rules, mapped).fatal.None?
    ensures HeldIn(ApplyRules(codec, defs, record, rules, mapped).payload, key)
            == var last := LastWritten(codec, defs, record, rules, key);
               if last.Some? then last else HeldIn(mapped.payload, key)
  {
    if rules != [] {
      var next := Affect(mapped, rules[0].target, EffectOf(codec, defs, record, rules[0]));
      RulesWriteLast(codec, defs, record, rules[1..], next, key);
    }
  }

  /** The rules a record is put through: all of them, or those before the first that refuses it. */
  ghost function Heeded(codec: Codec, defs: seq<FieldDef>, record: Record, rules: seq<Rule>): (heeded: seq<Rule>)
    ensures |heeded| <= |rules|
  {
    if rules == [] || EffectOf(codec, defs, record, rules[0]).Stop? then []
    else [rules[0]] + Heeded(codec, defs, record, rules[1..])
  }

  lemma {:induction false} HeededSpec(codec: Codec, defs: seq<FieldDef>, record: Record, rules: seq<Rule>)
    ensures var heeded := Heeded(codec, defs, record, rules);
            && heeded <= rules
            && (forall i :: 0 <= i < |heeded| ==> !EffectOf(codec, defs, record, heeded[i]).Stop?)
            && (heeded != rules ==> |heeded| < |rules| && EffectOf(codec, defs, record, rules[|heeded|]).Stop?)
  {
    if rules != [] && !EffectOf(codec, defs, record, rules[0]).Stop? {
      HeededSpec(codec, defs, record, rules[1..]);
      assert rules == [rules[0]] + rules[1..];
    }
  }

  /** A refusal only cuts the mapping short: what was mapped before it stays. */
  lemma {:induction false} RefusalCutsShort(codec: Codec, defs: seq<FieldDef>, record: Record, rules: seq<Rule>,
                                            mapped: Mapped)
    requires mapped.fatal.None?
    ensures var heeded := Heeded(codec, defs, record, rules);
            var through := ApplyRules(codec, defs, record, heeded, mapped);
            var all := ApplyRules(codec, defs, record, rules, mapped);
            && through.fatal.None? && all.payload == through.payload && all.warnings == through.warnings
            && (heeded == rules <==> all.fatal.None?)
            && (|heeded| < |rules| && EffectOf(codec, defs, record, rules[|heeded|]).Stop?
                ==> all.fatal == Some(EffectOf(codec, defs, record, rules[|heeded|]).warning))
  {
    HeededSpec(codec, defs, record, rules);
    if rules != [] && !EffectOf(codec, defs, record, rules[0]).Stop? {
      var heeded := Heeded(codec, defs, record, rules);
      assert heeded[1..] == Heeded(codec, defs, record, rules[1..]);
      RefusalCutsShort(codec, defs, record, rules[1..],
                       Affect(mapped, rules[0].target, EffectOf(codec, defs, record, rules[0])));
      HeededSpec(codec, defs, record, rules[1..]);
      assert heeded == rules <==> heeded[1..] == rules[1..];
    }
  }

  /** A record, refused or not, holds in each field exactly what the last rule aimed at that field wrote, of the rules
      it was put through, and no field besides; and those are all the rules unless it was refused, and then the ones
      before the rule that its refusal names. The ignored list has no part in it, so adding the id column to it
      changes no payload. */
  lemma {:induction false} PayloadIsTheLastWrite(codec: Codec, crosswalk: Crosswalk, record: Record,
                                                 defs: seq<FieldDef>, key: string, idField: string)
    ensures var mapped, heeded := Apply(codec, crosswalk, record, defs), Heeded(codec, defs, record, crosswalk.rules);
            && HeldIn(mapped.payload, key) == LastWritten(codec, defs, record, heeded, key)
            && heeded <= crosswalk.rules && (heeded == crosswalk.rules <==> mapped.fatal.None?)
            && (mapped.fatal.Some? ==> crosswalk.rules[|heeded|].source == mapped.fatal.value.source)
    ensures var mapped := Apply(codec, crosswalk, record, defs);
            var patched := Apply(codec, IgnoringId(crosswalk, idField), record, defs);
            patched.payload == mapped.payload && patched.fatal == mapped.fatal
    ensures IgnoringId(IgnoringId(crosswalk, idField), idField) == IgnoringId(crosswalk, idField)
  {
    var heeded := Heeded(codec, defs, record, crosswalk.rules);
    HeededSpec(codec, defs, record, crosswalk.rules);
    RefusalCutsShort(codec, defs, record, crosswalk.rules, NOTHING_MAPPED);
    RulesWriteLast(codec, defs, record, heeded, NOTHING_MAPPED, key);
  }

  // ---------- which crosswalks can refuse a record ----------

  /** A rule that can refuse a record: its table says fail, and its target is a field an import may write. */
  predicate CanRefuse(defs: seq<FieldDef>, rule: Rule) {
    rule.transform.Translate? && rule.transform.onMiss.Fail?
    && DefFor(defs, rule.target).Some? && !DefFor(defs, rule.target).value.readOnly
  }

  lemma {:induction false} NoFailNoError(codec: Codec, table: map<string, string>, onMiss: OnMiss, raw: Json)
    ensures raw.Arr? && !onMiss.Fail? ==> TranslateItems(codec, table, onMiss, raw.items).Ok?
  {
    if raw.Arr? && !onMiss.Fail? {
      ItemsTranslate(codec, table, onMiss, raw.items);
    }
  }

  lemma {:induction false} StopAtRule(codec: Codec, defs: seq<FieldDef>, record: Record, rules: seq<Rule>,
      mapped: Mapped, i: nat)
    requires i < |rules| && mapped.fatal.None? && EffectOf(codec, defs, record, rules[i]).Stop?
    ensures ApplyRules(codec, defs, record, rules, mapped).fatal.Some?
  {
    var next := Affect(mapped, rules[0].target, EffectOf(codec, defs, record, rules[0]));
    if i > 0 && next.fatal.None? {
      StopAtRule(codec, defs, record, rules[1..], next, i - 1);
    }
  }

  ghost function Xs(n: nat): string {
    if n == 0 then "" else "x" + Xs(n - 1)
  }

  lemma {:induction false} XsShape(n: nat)
    ensures |Xs(n)| == n && forall i :: 0 <= i < n ==> Xs(n)[i] == 'x'
  {
    if n > 0 {
      XsShape(n - 1);
    }
  }

  /** No finite table has an entry for every word. */
  lemma {:induction false} LongerThanAll(keys: set<string>) returns (n: nat)
    ensures n > 0 && forall key :: key in keys ==> |key| < n
  {
    n := 1;
    if keys != {} {
      var key :| key in keys;
      n := LongerThanAll(keys - {key});
      n := if n > |key| then n else |key| + 1;
      forall other | other in keys
        ensures |other| < n
      {
        assert other == key || other in keys - {key};
      }
    }
  }

  /** A word a refusing rule has no entry for, so that it refuses every record holding that word. */
  lemma {:induction false} RefusedWord(codec: Codec, defs: seq<FieldDef>, rule: Rule) returns (word: string)
    requires CanRefuse(defs, rule)
    ensures !IsBlank(word) && Lookup(rule.transform.table, word).None?
  {
    var n := LongerThanAll(rule.transform.table.Keys);
    XsShape(n);
    word := Xs(n);
    TrimIdempotent(word);
    assert Trim(word) == word;
  }

  lemma {:induction false} WordIsRefused(codec: Codec, defs: seq<FieldDef>, rule: Rule, record: Record, word: string)
    requires CanRefuse(defs, rule) && !IsBlank(word) && Lookup(rule.transform.table, word).None?
    requires FieldValue(record, rule.source) == Some(Str(word))
    ensures EffectOf(codec, defs, record, rule).Stop?
  {
  }

  lemma {:induction false} RefusedIfARuleStops(codec: Codec, crosswalk: Crosswalk, record: Record, defs: seq<FieldDef>,
                                               rule: Rule)
    requires rule in crosswalk.rules && EffectOf(codec, defs, record, rule).Stop?
    ensures Apply(codec, crosswalk, record, defs).fatal.Some?
  {
    var i :| 0 <= i < |crosswalk.rules| && crosswalk.rules[i] == rule;
    StopAtRule(codec, defs, record, crosswalk.rules, NOTHING_MAPPED, i);
  }

  /** What refused a record: a rule that can, and a text in the record that its table has no entry for. */
  lemma {:induction false} RefusedByARule(codec: Codec, defs: seq<FieldDef>, record: Record, rules: seq<Rule>,
                                          mapped: Mapped)
    returns (rule: Rule)
    requires mapped.fatal.None? && ApplyRules(codec, defs, record, rules, mapped).fatal.Some?
    ensures rule in rules && CanRefuse(defs, rule) && EffectOf(codec, defs, record, rule).Stop?
  {
    rule := rules[0];
    var effect := EffectOf(codec, defs, record, rule);
    if effect.Stop? {
      var raw := FieldValue(record, rule.source).value;
      NoFailNoError(codec, rule.transform.table, rule.transform.onMiss, raw);
    } else {
      rule := RefusedByARule(codec, defs, record, rules[1..], Affect(mapped, rule.target, effect));
    }
  }

  /** A crosswalk refuses some record exactly when one of its rules can: a fail-on-miss table aimed at a field the
      library has and lets an import write. Nothing else ever refuses a record. */
  lemma {:induction false} RefusesIffARuleCan(codec: Codec, crosswalk: Crosswalk, defs: seq<FieldDef>)
    ensures (exists record: Record :: Apply(codec, crosswalk, record, defs).fatal.Some?)
            <==> exists rule :: rule in crosswalk.rules && CanRefuse(defs, rule)
  {
    if rule :| rule in crosswalk.rules && CanRefuse(defs, rule) {
      var word := RefusedWord(codec, defs, rule);
      var record: Record := [Field(rule.source, Str(word))];
      assert FieldValue(record, rule.source) == Some(Str(word));
      WordIsRefused(codec, defs, rule, record, word);
      RefusedIfARuleStops(codec, crosswalk, record, defs, rule);
    }
    if record: Record :| Apply(codec, crosswalk, record, defs).fatal.Some? {
      var rule := RefusedByARule(codec, defs, record, crosswalk.rules, NOTHING_MAPPED);
    }
  }

  // ---------- translating an array ----------

  ghost function Missing(codec: Codec, table: map<string, string>, items: seq<Json>): nat {
    if items == [] then 0
    else (if Lookup(table, AsText(codec, items[0])).None? then 1 else 0) + Missing(codec, table, items[1..])
  }

  /** Translating an array keeps every item, in number, except those a drop-on-miss table has no entry for. */
  lemma {:induction false} ItemsTranslate(codec: Codec, table: map<string, string>, onMiss: OnMiss, items: seq<Json>)
    ensures TranslateItems(codec, table, onMiss, items).Err? <==> onMiss.Fail? && Missing(codec, table, items) > 0
    ensures Missing(codec, table, items) <= |items|
    ensures TranslateItems(codec, table, onMiss, items).Ok?
            ==> |TranslateItems(codec, table, onMiss, items).value|
                == |items| - (if onMiss.Drop? then Missing(codec, table, items) else 0)
  {
    if items != [] {
      ItemsTranslate(codec, table, onMiss, items[1..]);
    }
  }

  // ---------- fields nobody mapped ----------

  lemma {:induction false} RulesNeverSayUnmapped(codec: Codec, defs: seq<FieldDef>, record: Record, rules: seq<Rule>,
      mapped: Mapped, name: string)
    requires Warning(name, Unmapped) !in mapped.warnings
    ensures Warning(name, Unmapped) !in ApplyRules(codec, defs, record, rules, mapped).warnings
  {
    if rules != [] {
      var next := Affect(mapped, rules[0].target, EffectOf(codec, defs, record, rules[0]));
      RulesNeverSayUnmapped(codec, defs, record, rules[1..], next, name);
    }
  }

  lemma {:induction false} UnmappedSpec(crosswalk: Crosswalk, fields: seq<Field>, name: string)
    requires DistinctNames(fields)
    ensures multiset(UnmappedWarnings(crosswalk, fields))[Warning(name, Unmapped)]
            == if exists i :: 0 <= i < |fields| && fields[i].name == name && GoesNowhere(crosswalk, fields[i])
               then 1 else 0
  {
    if fields != [] {
      var rest := fields[1..];
      var here := if GoesNowhere(crosswalk, fields[0]) then [Warning(fields[0].name, Unmapped)] else [];
      UnmappedSpec(crosswalk, rest, name);
      assert multiset(UnmappedWarnings(crosswalk, fields))
             == multiset(here) + multiset(UnmappedWarnings(crosswalk, rest));
      assert forall i :: 0 <= i < |rest| ==> rest[i] == fields[i + 1];
      if i :| 0 <= i < |fields| && fields[i].name == name && GoesNowhere(crosswalk, fields[i]) {
        if i > 0 {
          assert rest[i - 1] == fields[i];
        }
      }
    }
  }

  /** A field of a record that is not refused is reported as unmapped exactly once when it carries something, no rule
      mentions it and nobody decided against it, and otherwise not at all. Of a refused record none ever is. */
  lemma {:induction false} UnmappedIsNamedOnce(codec: Codec, crosswalk: Crosswalk, record: Record,
                                               defs: seq<FieldDef>, name: string)
    ensures multiset(Apply(codec, crosswalk, record, defs).warnings)[Warning(name, Unmapped)]
            == if Apply(codec, crosswalk, record, defs).fatal.None? && name !in crosswalk.ignored
                  && (forall j :: 0 <= j < |crosswalk.rules| ==> crosswalk.rules[j].source != name)
                  && (exists i :: 0 <= i < |record| && record[i].name == name && !IsNothing(record[i].value))
               then 1 else 0
  {
    RulesNeverSayUnmapped(codec, defs, record, crosswalk.rules, NOTHING_MAPPED, name);
    var mapped := Apply(codec, crosswalk, record, defs);
    if mapped.fatal.None? {
      UnmappedSpec(crosswalk, record, name);
      var ruled := ApplyRules(codec, defs, record, crosswalk.rules, NOTHING_MAPPED).warnings;
      assert multiset(mapped.warnings) == multiset(ruled) + multiset(UnmappedWarnings(crosswalk, record));
    }
  }

  /** The id column names the record, so it is never a loss: with it ignored it is not reported as unmapped, and every
      other column is reported, mapped and refused exactly as without. */
  lemma {:induction false} IdIsNeverUnmapped(codec: Codec, crosswalk: Crosswalk, record: Record, defs: seq<FieldDef>,
                                             idField: string, name: string)
    ensures var patched := Apply(codec, IgnoringId(crosswalk, idField), record, defs);
            var plain := Apply(codec, crosswalk, record, defs);
            && multiset(patched.warnings)[Warning(idField, Unmapped)] == 0
            && (name != idField
                ==> multiset(patched.warnings)[Warning(name, Unmapped)]
                    == multiset(plain.warnings)[Warning(name, Unmapped)])
            && patched.payload == plain.payload && patched.fatal == plain.fatal
  {
    UnmappedIsNamedOnce(codec, IgnoringId(crosswalk, idField), record, defs, idField);
    UnmappedIsNamedOnce(codec, IgnoringId(crosswalk, idField), record, defs, name);
    UnmappedIsNamedOnce(codec, crosswalk, record, defs, name);
  }
}
