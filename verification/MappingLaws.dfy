/** What a crosswalk writes, says and refuses, rule by rule, stated of the record and the rules alone
    (crates/dam-core/src/crosswalk.rs). */
module MappingLaws {
  import opened Crosswalk
  import opened CrosswalkLaws
  import opened Json
  import opened Text
  import opened Wrappers

  // ---------- what carries something ----------

  /** The values of a nested array, laid out flat. */
  function Leaves(value: Json): seq<Json>
    decreases value
  {
    match value
    case Arr(items) => LeavesOfAll(items)
    case _ => [value]
  }

  function LeavesOfAll(values: seq<Json>): seq<Json>
    decreases values
  {
    if values == [] then [] else Leaves(values[0]) + LeavesOfAll(values[1..])
  }

  ghost predicate IsEmptyLeaf(leaf: Json) {
    leaf == Null || (leaf.Str? && forall i :: 0 <= i < |leaf.s| ==> IsSpace(leaf.s[i]))
  }

  lemma {:induction false} NothingIffEmptyLeaf(value: Json)
    requires !value.Arr?
    ensures IsNothing(value) <==> IsEmptyLeaf(value)
  {
    if value.Str? {
      BlankIsAllSpaces(value.s);
      AllSpaces(value.s);
    }
  }

  /** A value carries nothing exactly when all there is in it, however deep in arrays, is nulls and space. */
  lemma {:induction false} NothingIffEmptyLeaves(value: Json)
    ensures IsNothing(value) <==> forall leaf :: leaf in Leaves(value) ==> IsEmptyLeaf(leaf)
    decreases value
  {
    if value.Arr? {
      NothingInAny(value.items);
    } else {
      NothingIffEmptyLeaf(value);
      assert Leaves(value) == [value] && value in Leaves(value);
    }
  }

  lemma {:induction false} NothingInAny(values: seq<Json>)
    ensures (forall i :: 0 <= i < |values| ==> IsNothing(values[i]))
            <==> forall leaf :: leaf in LeavesOfAll(values) ==> IsEmptyLeaf(leaf)
    decreases values
  {
    if values != [] {
      NothingIffEmptyLeaves(values[0]);
      NothingInAny(values[1..]);
      assert values == [values[0]] + values[1..];
      assert forall i :: 0 <= i < |values[1..]| ==> values[1..][i] == values[i + 1];
      if forall i :: 0 <= i < |values[1..]| ==> IsNothing(values[1..][i]) {
        forall i | 0 < i < |values|
          ensures IsNothing(values[i])
        {
          assert values[i] == values[1..][i - 1];
        }
      }
    }
  }

  /** A record is asked by name. */
  lemma {:induction false} FieldValueIff(record: Record, name: string, raw: Json)
    ensures FieldValue(record, name) == Some(raw) <==> Field(name, raw) in record
  {
    if record != [] {
      var rest: Record := record[1..];
      FieldValueIff(rest, name, raw);
      assert record == [record[0]] + rest;
      assert forall i :: 0 <= i < |rest| ==> rest[i] == record[i + 1] && rest[i].name != record[0].name;
    }
  }

  /** The definition of a field is the first one with its key. */
  ghost predicate Defines(defs: seq<FieldDef>, key: string, def: FieldDef) {
    exists i :: 0 <= i < |defs| && defs[i] == def && def.key == key && forall j :: 0 <= j < i ==> defs[j].key != key
  }

  lemma {:induction false} DefForIff(defs: seq<FieldDef>, key: string, def: FieldDef)
    ensures DefFor(defs, key) == Some(def) <==> Defines(defs, key, def)
  {
    if defs != [] {
      var rest := defs[1..];
      DefForIff(rest, key, def);
      assert forall i :: 0 <= i < |rest| ==> rest[i] == defs[i + 1];
      if i :| 0 <= i < |rest| && rest[i] == def && def.key == key && forall j :: 0 <= j < i ==> rest[j].key != key {
        if defs[0].key != key {
          assert defs[i + 1] == def;
          assert forall j :: 0 <= j < i + 1 ==> defs[j].key != key;
        }
      }
      if i :| 0 <= i < |defs| && defs[i] == def && def.key == key && forall j :: 0 <= j < i ==> defs[j].key != key {
        if i > 0 {
          assert rest[i - 1] == def;
        }
      }
    }
  }

  ghost predicate IsTextOf(codec: Codec, value: Json, text: string) {
    match value
    case Str(s) => text == s
    case Null => text == ""
    case _ => text == codec.show(value)
  }

  // ---------- cutting a text into pieces ----------

  ghost predicate OccursAt(text: string, on: string, i: int) {
    0 <= i && i + |on| <= |text| && text[i..i + |on|] == on
  }

  /** Followed by a separator, the piece ends where the first separator starts. */
  ghost predicate EndsAtFirst(piece: string, on: string) {
    forall i :: 0 <= i < |piece| ==> !OccursAt(piece + on, on, i)
  }

  ghost predicate HasNone(piece: string, on: string) {
    forall i :: !OccursAt(piece, on, i)
  }

  /** Pieces that give the text back when joined, cut at every separator as it first comes. */
  ghost predicate Cuts(text: string, on: string, pieces: seq<string>) {
    && on != "" && pieces != [] && JoinAll(pieces, on) == text
    && (forall i :: 0 <= i < |pieces| - 1 ==> EndsAtFirst(pieces[i], on))
    && HasNone(pieces[|pieces| - 1], on)
  }

  lemma {:induction false} FirstOccurrence(text: string, on: string)
    requires on != ""
    ensures var i := FindPattern(text, on);
            && (forall j :: 0 <= j < i ==> !OccursAt(text, on, j))
            && if i + |on| <= |text| then OccursAt(text, on, i) else HasNone(text, on)
  {
    if |text| >= |on| && !(on <= text) {
      var rest := text[1..];
      FirstOccurrence(rest, on);
      assert !OccursAt(text, on, 0);
      forall j | 0 < j
        ensures OccursAt(text, on, j) <==> OccursAt(rest, on, j - 1)
      {
        if j + |on| <= |text| {
          assert text[j..j + |on|] == rest[j - 1..j - 1 + |on|];
        }
      }
    } else if |text| >= |on| {
      assert text[..|on|] == on;
    }
  }

  lemma {:induction false} OneMoreCut(head: string, rest: string, on: string, pieces: seq<string>)
    requires Cuts(rest, on, pieces) && EndsAtFirst(head, on)
    ensures Cuts(head + on + rest, on, [head] + pieces)
  {
    var all := [head] + pieces;
    assert all[1..] == pieces && all[|all| - 1] == pieces[|pieces| - 1];
    forall i | 0 <= i < |all| - 1
      ensures EndsAtFirst(all[i], on)
    {
      assert i > 0 ==> all[i] == pieces[i - 1];
    }
  }

  /** Cutting loses nothing of the text and cuts at every separator: the pieces are the ones described, and those
      describe no others. */
  lemma {:induction false} SplitCuts(text: string, on: string)
    requires on != ""
    ensures Cuts(text, on, SplitOn(text, on))
    decreases |text|
  {
    var i := FindPattern(text, on);
    FirstOccurrence(text, on);
    if i + |on| <= |text| {
      var head, rest := text[..i], text[i + |on|..];
      assert text == head + on + rest;
      forall j | 0 <= j < |head|
        ensures !OccursAt(head + on, on, j)
      {
        assert !OccursAt(text, on, j);
        assert (head + on)[j..j + |on|] == text[j..j + |on|];
      }
      SplitCuts(rest, on);
      OneMoreCut(head, rest, on, SplitOn(rest, on));
    } else {
      assert SplitOn(text, on) == [text];
    }
  }

  lemma {:induction false} CutsAreSplit(text: string, on: string, pieces: seq<string>)
    requires Cuts(text, on, pieces)
    ensures pieces == SplitOn(text, on)
    decreases |pieces|
  {
    FirstOccurrence(text, on);
    var i := FindPattern(text, on);
    if |pieces| == 1 {
      assert pieces == [text] && HasNone(text, on);
      assert i + |on| <= |text| ==> OccursAt(text, on, i);
    } else {
      var head, others := pieces[0], pieces[1..];
      var rest := JoinAll(others, on);
      assert text == head + on + rest;
      FirstCut(head, rest, on);
      assert text[i + |on|..] == rest && text[..i] == head;
      assert forall k :: 0 <= k < |others| ==> others[k] == pieces[k + 1];
      CutsAreSplit(rest, on, others);
      assert pieces == [head] + others;
    }
  }

  lemma {:induction false} FirstCut(head: string, rest: string, on: string)
    requires on != "" && EndsAtFirst(head, on)
    ensures FindPattern(head + on + rest, on) == |head|
  {
    var text := head + on + rest;
    FirstOccurrence(text, on);
    assert OccursAt(text, on, |head|) by {
      assert text[|head|..|head| + |on|] == on;
    }
    forall j | 0 <= j < |head|
      ensures !OccursAt(text, on, j)
    {
      assert !OccursAt(head + on, on, j);
      assert text[j..j + |on|] == (head + on)[j..j + |on|];
    }
    var i := FindPattern(text, on);
    assert i + |on| <= |text| ==> OccursAt(text, on, i);
  }

  // ---------- keeping some of a sequence ----------

  ghost function Somes<T>(xs: seq<Option<T>>): seq<T> {
    if xs == [] then []
    else
      var n := |xs| - 1;
      Somes(xs[..n]) + if xs[n].Some? then [xs[n].value] else []
  }

  lemma {:induction false} SomesFromTheFront<T>(xs: seq<Option<T>>)
    requires xs != []
    ensures Somes(xs) == (if xs[0].Some? then [xs[0].value] else []) + Somes(xs[1..])
  {
    var n := |xs| - 1;
    if n > 0 {
      SomesFromTheFront(xs[..n]);
      assert xs[1..][..n - 1] == xs[..n][1..];
    }
  }

  /** `kept` is what is there in `xs`, in order, each at the place `at` says. */
  ghost predicate KeptAt<T(!new)>(xs: seq<Option<T>>, at: seq<nat>, kept: seq<T>) {
    && |at| == |kept|
    && (forall m, n :: 0 <= m < n < |at| ==> at[m] < at[n])
    && (forall m :: 0 <= m < |at| ==> at[m] < |xs| && xs[at[m]] == Some(kept[m]))
    && (forall i :: 0 <= i < |xs| && xs[i].Some? ==> i in at)
  }

  lemma {:induction false} SomesAreKept<T(!new)>(xs: seq<Option<T>>) returns (at: seq<nat>)
    ensures KeptAt(xs, at, Somes(xs))
  {
    at := [];
    if xs != [] {
      var n := |xs| - 1;
      at := SomesAreKept(xs[..n]);
      KeptOneMore(xs, at, Somes(xs[..n]));
      if xs[n].Some? {
        at := at + [n];
      }
    }
  }

  lemma {:induction false} KeptOneMore<T(!new)>(xs: seq<Option<T>>, at: seq<nat>, kept: seq<T>)
    requires xs != [] && KeptAt(xs[..|xs| - 1], at, kept)
    ensures var n := |xs| - 1;
            if xs[n].Some? then KeptAt(xs, at + [n], kept + [xs[n].value]) else KeptAt(xs, at, kept)
  {
    var n := |xs| - 1;
    forall i | 0 <= i < n && xs[i].Some?
      ensures i in at
    {
      assert xs[..n][i] == xs[i];
    }
    forall m | 0 <= m < |at|
      ensures at[m] < n && xs[at[m]] == Some(kept[m])
    {
      assert xs[..n][at[m]] == xs[at[m]];
    }
    if xs[n].Some? {
      var more := at + [n];
      assert n == more[|at|];
      forall i | 0 <= i < |xs| && xs[i].Some?
        ensures i in more
      {
        assert i < n ==> i in at;
      }
    }
  }

  ghost function PartOf(piece: string): Option<Json> {
    if IsBlank(piece) then None else Some(Str(Trim(piece)))
  }

  ghost function PartsOf(pieces: seq<string>): (parts: seq<Option<Json>>)
    ensures |parts| == |pieces|
  {
    seq(|pieces|, i requires 0 <= i < |pieces| => PartOf(pieces[i]))
  }

  lemma {:induction false} PartsAreKept(pieces: seq<string>)
    ensures TrimmedParts(pieces) == Somes(PartsOf(pieces))
  {
    if pieces != [] {
      PartsAreKept(pieces[1..]);
      SomesFromTheFront(PartsOf(pieces));
      assert PartsOf(pieces)[1..] == PartsOf(pieces[1..]);
    }
  }

  // ---------- translating an array ----------

  ghost predicate IsListed(codec: Codec, table: map<string, string>, item: Json) {
    exists text :: IsTextOf(codec, item, text) && Trim(text) in table
  }

  lemma {:induction false} TextIsUnique(codec: Codec, table: map<string, string>, item: Json)
    ensures IsTextOf(codec, item, AsText(codec, item))
    ensures forall text :: IsTextOf(codec, item, text) ==> text == AsText(codec, item)
    ensures IsListed(codec, table, item) <==> Trim(AsText(codec, item)) in table
  {
  }

  /** What an item comes to: its entry, or itself where a table keeps what it has no entry for, or nothing. */
  ghost predicate ComesTo(codec: Codec, table: map<string, string>, drop: bool, item: Json, value: Option<Json>) {
    exists text :: IsTextOf(codec, item, text)
                   && value == if Trim(text) in table then Some(Str(table[Trim(text)]))
                               else if drop then None else Some(Str(text))
  }

  ghost predicate AllComeTo(codec: Codec, table: map<string, string>, drop: bool, items: seq<Json>,
                            values: seq<Option<Json>>) {
    |values| == |items| && forall i :: 0 <= i < |items| ==> ComesTo(codec, table, drop, items[i], values[i])
  }

  lemma {:induction false} ItemsAreKept(codec: Codec, table: map<string, string>, onMiss: OnMiss, items: seq<Json>)
    returns (values: seq<Option<Json>>)
    requires TranslateItems(codec, table, onMiss, items).Ok?
    ensures AllComeTo(codec, table, onMiss.Drop?, items, values)
    ensures TranslateItems(codec, table, onMiss, items).value == Somes(values)
  {
    values := [];
    if items != [] {
      var rest := ItemsAreKept(codec, table, onMiss, items[1..]);
      TextIsUnique(codec, table, items[0]);
      var text := AsText(codec, items[0]);
      var here := if Trim(text) in table then Some(Str(table[Trim(text)]))
                  else if onMiss.Drop? then None else Some(Str(text));
      assert ComesTo(codec, table, onMiss.Drop?, items[0], here);
      values := [here] + rest;
      SomesFromTheFront(values);
      assert values[1..] == rest;
      forall i | 0 <= i < |items|
        ensures ComesTo(codec, table, onMiss.Drop?, items[i], values[i])
      {
        assert i > 0 ==> items[i] == items[1..][i - 1];
      }
    }
  }

  /** The first item a table has no entry for. */
  ghost predicate FirstUnlisted(codec: Codec, table: map<string, string>, items: seq<Json>, i: nat, text: string) {
    && i < |items| && IsTextOf(codec, items[i], text) && Trim(text) !in table
    && forall j :: 0 <= j < i ==> IsListed(codec, table, items[j])
  }

  lemma {:induction false} RefusedAtFirstUnlisted(codec: Codec, table: map<string, string>, items: seq<Json>)
    ensures var translated := TranslateItems(codec, table, Fail, items);
            && (translated.Ok? <==> forall i :: 0 <= i < |items| ==> IsListed(codec, table, items[i]))
            && (translated.Err? ==> exists i: nat :: FirstUnlisted(codec, table, items, i, translated.error))
  {
    if items != [] {
      var rest := items[1..];
      TextIsUnique(codec, table, items[0]);
      RefusedAtFirstUnlisted(codec, table, rest);
      assert forall i :: 0 <= i < |rest| ==> rest[i] == items[i + 1];
      if !IsListed(codec, table, items[0]) {
        assert FirstUnlisted(codec, table, items, 0, AsText(codec, items[0]));
      } else if TranslateItems(codec, table, Fail, rest).Err? {
        var text := TranslateItems(codec, table, Fail, rest).error;
        var i: nat :| FirstUnlisted(codec, table, rest, i, text);
        forall j | 0 <= j < i + 1
          ensures IsListed(codec, table, items[j])
        {
          assert j > 0 ==> items[j] == rest[j - 1];
        }
        assert FirstUnlisted(codec, table, items, i + 1, text);
      } else {
        forall i | 0 <= i < |items|
          ensures IsListed(codec, table, items[i])
        {
          assert i > 0 ==> items[i] == rest[i - 1];
        }
      }
    }
  }

  lemma {:induction false} SameComing(codec: Codec, table: map<string, string>, drop: bool, items: seq<Json>,
                                      values: seq<Option<Json>>, others: seq<Option<Json>>)
    requires AllComeTo(codec, table, drop, items, values) && AllComeTo(codec, table, drop, items, others)
    ensures values == others
  {
    forall i | 0 <= i < |items|
      ensures values[i] == others[i]
    {
      assert ComesTo(codec, table, drop, items[i], values[i]) && ComesTo(codec, table, drop, items[i], others[i]);
      TextIsUnique(codec, table, items[i]);
    }
  }

  // ---------- what a rule makes of a value ----------

  function Wrapped(def: FieldDef, value: Json): Json {
    if def.multivalued then Arr([value]) else value
  }

  /** Cut at a separator, or, at an empty one, around every character. */
  ghost predicate IsCutInto(text: string, on: string, pieces: seq<string>) {
    if on != "" then Cuts(text, on, pieces)
    else |pieces| == |text| + 2 && pieces[0] == "" && pieces[|text| + 1] == ""
         && forall i :: 0 <= i < |text| ==> pieces[i + 1] == [text[i]]
  }

  ghost predicate IsCutOf(codec: Codec, raw: Json, on: string, pieces: seq<string>) {
    exists text :: IsTextOf(codec, raw, text) && IsCutInto(text, on, pieces)
  }

  ghost predicate AreTextsOf(codec: Codec, items: seq<Json>, texts: seq<string>) {
    |texts| == |items| && forall i :: 0 <= i < |items| ==> IsTextOf(codec, items[i], texts[i])
  }

  ghost function NonEmpty(texts: seq<string>): (some: seq<Option<string>>)
    ensures |some| == |texts|
  {
    seq(|texts|, i requires 0 <= i < |texts| => if texts[i] == "" then None else Some(texts[i]))
  }

  /** All the values for a field that takes several; for one that takes one, that one, or null for none. */
  ghost predicate Fits(def: FieldDef, values: seq<Json>, value: Json) {
    if def.multivalued then value == Arr(values) else |values| <= 1 && value == if values == [] then Null else values[0]
  }

  ghost predicate MakesParts(codec: Codec, def: FieldDef, on: string, raw: Json, pieces: seq<string>, value: Json) {
    IsCutOf(codec, raw, on, pieces) && Fits(def, Somes(PartsOf(pieces)), value)
  }

  ghost predicate MakesText(codec: Codec, separator: string, raw: Json, texts: seq<string>, value: Json) {
    if raw.Arr? then AreTextsOf(codec, raw.items, texts) && value == Str(JoinAll(Somes(NonEmpty(texts)), separator))
    else |texts| == 1 && IsTextOf(codec, raw, texts[0]) && value == Str(texts[0])
  }

  ghost predicate MakesDate(codec: Codec, format: string, raw: Json, text: string, value: Json) {
    IsTextOf(codec, raw, text) && codec.date(Trim(text), format).Some?
        && value == Str(codec.date(Trim(text), format).value)
  }

  ghost predicate MakesEntry(codec: Codec, def: FieldDef, table: map<string, string>, onMiss: OnMiss, raw: Json,
                             text: string, value: Json) {
    && IsTextOf(codec, raw, text)
    && if Trim(text) in table then value == Wrapped(def, Str(table[Trim(text)]))
       else onMiss.Keep? && value == Wrapped(def, Str(text))
  }

  ghost predicate MakesEntries(codec: Codec, def: FieldDef, table: map<string, string>, onMiss: OnMiss,
                               items: seq<Json>,
                               values: seq<Option<Json>>, value: Json) {
    && AllComeTo(codec, table, onMiss.Drop?, items, values) && Fits(def, Somes(values), value)
    && (onMiss.Fail? ==> forall i :: 0 <= i < |items| ==> IsListed(codec, table, items[i]))
  }

  /** What a rule is to make of a value that carries something. */
  ghost predicate Makes(codec: Codec, def: FieldDef, rule: Rule, raw: Json, value: Json) {
    match rule.transform
    case Constant(constant) => value == constant
    case Copy => value == Wrapped(def, if raw.Str? then Str(Trim(raw.s)) else raw)
    case Split(on) => exists pieces :: MakesParts(codec, def, on, raw, pieces, value)
    case Join(separator) => exists texts :: MakesText(codec, separator, raw, texts, value)
    case Date(format) => exists text :: MakesDate(codec, format, raw, text, value)
    case Translate(table, onMiss) =>
      if raw.Arr? then exists values :: MakesEntries(codec, def, table, onMiss, raw.items, values, value)
      else exists text :: MakesEntry(codec, def, table, onMiss, raw, text, value)
  }

  /** What a rule is to say against one. */
  ghost predicate ObjectsTo(codec: Codec, def: FieldDef, rule: Rule, raw: Json, loss: Loss) {
    match rule.transform
    case Split(on) =>
      !def.multivalued && loss.TooManyParts? && loss.produced > 1 && loss.target == rule.target
      && exists pieces :: IsCutOf(codec, raw, on, pieces) && loss.produced == |Somes(PartsOf(pieces))|
    case Date(format) =>
      loss.BadDate? && loss.format == format && IsTextOf(codec, raw, loss.text)
      && codec.date(Trim(loss.text), format).None?
    case Translate(table, onMiss) =>
      if raw.Arr? then
        && loss == TooManyMapped(rule.target) && !def.multivalued
        && (onMiss.Fail? ==> forall i :: 0 <= i < |raw.items| ==> IsListed(codec, table, raw.items[i]))
        && exists values :: AllComeTo(codec, table, onMiss.Drop?, raw.items, values) && |Somes(values)| > 1
      else loss.NoEntry? && onMiss.Drop? && IsTextOf(codec, raw, loss.text) && Trim(loss.text) !in table
    case _ => false
  }

  /** And when it is to refuse the record, over which text. */
  ghost predicate RefusesOver(codec: Codec, rule: Rule, raw: Json, text: string) {
    && rule.transform.Translate? && rule.transform.onMiss.Fail?
    && if raw.Arr? then exists i: nat :: FirstUnlisted(codec, rule.transform.table, raw.items, i, text)
       else IsTextOf(codec, raw, text) && Trim(text) !in rule.transform.table
  }

  // ---------- and does ----------

  lemma {:induction false} CutIsSplit(text: string, on: string, pieces: seq<string>)
    ensures IsCutInto(text, on, pieces) <==> pieces == SplitOn(text, on)
  {
    if on != "" {
      SplitCuts(text, on);
      if Cuts(text, on, pieces) {
        CutsAreSplit(text, on, pieces);
      }
    } else {
      EmptyCut(text);
      var split := SplitOn(text, "");
      if IsCutInto(text, on, pieces) {
        forall i | 0 <= i < |pieces|
          ensures pieces[i] == split[i]
        {
          assert 0 < i <= |text| ==> pieces[i] == pieces[(i - 1) + 1] && split[i] == split[(i - 1) + 1];
        }
        assert pieces == split;
      }
    }
  }

  lemma {:induction false} EmptyCut(text: string)
    ensures IsCutInto(text, "", SplitOn(text, "")) && |SplitOn(text, "")| == |text| + 2
  {
    var split := SplitOn(text, "");
    forall i | 0 <= i < |text|
      ensures split[i + 1] == [text[i]]
    {
    }
  }

  /** A value has one text and one cut. */
  lemma {:induction false} OneCut(codec: Codec, raw: Json, on: string)
    ensures forall pieces :: IsCutOf(codec, raw, on, pieces) <==> pieces == SplitOn(AsText(codec, raw), on)
    ensures Somes(PartsOf(SplitOn(AsText(codec, raw), on))) == TrimmedParts(SplitOn(AsText(codec, raw), on))
  {
    var text := AsText(codec, raw);
    TextIsUnique(codec, map[], raw);
    PartsAreKept(SplitOn(text, on));
    forall pieces
      ensures IsCutOf(codec, raw, on, pieces) <==> pieces == SplitOn(text, on)
    {
      CutIsSplit(text, on, pieces);
    }
  }

  lemma {:induction false} SplitMakes(codec: Codec, def: FieldDef, rule: Rule, raw: Json, value: Json)
    requires rule.transform.Split?
    ensures Move(codec, rule, raw, def) == Value(value) <==> Makes(codec, def, rule, raw, value)
  {
    var on, pieces := rule.transform.on, SplitOn(AsText(codec, raw), rule.transform.on);
    OneCut(codec, raw, on);
    assert Move(codec, rule, raw, def) == Value(value) <==> MakesParts(codec, def, on, raw, pieces, value);
  }

  lemma {:induction false} SplitObjects(codec: Codec, def: FieldDef, rule: Rule, raw: Json, loss: Loss)
    requires rule.transform.Split?
    ensures var moved := Move(codec, rule, raw, def);
            && (moved == Dropped(Warning(rule.source, loss)) <==> ObjectsTo(codec, def, rule, raw, loss))
            && (moved.Value? || (moved.Dropped? && moved.warning.source == rule.source))
  {
    OneCut(codec, raw, rule.transform.on);
    assert IsCutOf(codec, raw, rule.transform.on, SplitOn(AsText(codec, raw), rule.transform.on));
  }

  lemma {:induction false} TextsAreJoined(codec: Codec, items: seq<Json>, texts: seq<string>)
    requires AreTextsOf(codec, items, texts)
    ensures NonEmptyTexts(codec, items) == Somes(NonEmpty(texts))
  {
    if items != [] {
      var rest := texts[1..];
      assert AreTextsOf(codec, items[1..], rest) by {
        assert forall i :: 0 <= i < |rest| ==> rest[i] == texts[i + 1] && items[1..][i] == items[i + 1];
      }
      TextsAreJoined(codec, items[1..], rest);
      SomesFromTheFront(NonEmpty(texts));
      assert NonEmpty(texts)[1..] == NonEmpty(rest);
      TextIsUnique(codec, map[], items[0]);
      assert IsTextOf(codec, items[0], texts[0]);
    }
  }

  lemma {:induction false} JoinMakes(codec: Codec, def: FieldDef, rule: Rule, raw: Json, value: Json)
    requires rule.transform.Join?
    ensures Move(codec, rule, raw, def).Value?
    ensures Move(codec, rule, raw, def).value == value <==> Makes(codec, def, rule, raw, value)
  {
    var separator := rule.transform.separator;
    if raw.Arr? {
      var texts := seq(|raw.items|, i requires 0 <= i < |raw.items| => AsText(codec, raw.items[i]));
      forall i | 0 <= i < |raw.items|
        ensures IsTextOf(codec, raw.items[i], texts[i])
      {
        TextIsUnique(codec, map[], raw.items[i]);
      }
      TextsAreJoined(codec, raw.items, texts);
      assert MakesText(codec, separator, raw, texts, Move(codec, rule, raw, def).value);
      forall others | MakesText(codec, separator, raw, others, value)
        ensures Move(codec, rule, raw, def).value == value
      {
        TextsAreJoined(codec, raw.items, others);
      }
    } else {
      TextIsUnique(codec, map[], raw);
      assert MakesText(codec, separator, raw, [AsText(codec, raw)], Move(codec, rule, raw, def).value);
    }
  }

  lemma {:induction false} DateMakes(codec: Codec, def: FieldDef, rule: Rule, raw: Json, value: Json, loss: Loss)
    requires rule.transform.Date?
    ensures var moved := Move(codec, rule, raw, def);
            && (moved == Value(value) <==> Makes(codec, def, rule, raw, value))
            && (moved == Dropped(Warning(rule.source, loss)) <==> ObjectsTo(codec, def, rule, raw, loss))
            && (moved.Value? || (moved.Dropped? && moved.warning.source == rule.source))
  {
    var text := AsText(codec, raw);
    TextIsUnique(codec, map[], raw);
    assert MakesDate(codec, rule.transform.format, raw, text, value)
           <==> codec.date(Trim(text), rule.transform.format).Some? && Move(codec, rule, raw, def) == Value(value);
  }

  lemma {:induction false} EntryMakes(codec: Codec, def: FieldDef, rule: Rule, raw: Json, value: Json, loss: Loss)
    requires rule.transform.Translate? && !raw.Arr?
    ensures var moved := Move(codec, rule, raw, def);
            && (moved == Value(value) <==> Makes(codec, def, rule, raw, value))
            && (moved == Dropped(Warning(rule.source, loss)) <==> ObjectsTo(codec, def, rule, raw, loss))
            && (moved == Fatal(Warning(rule.source, loss))
                <==> loss.NoEntry? && RefusesOver(codec, rule, raw, loss.text))
            && (moved.Dropped? || moved.Fatal? ==> moved.warning.source == rule.source)
  {
    var table, onMiss, text := rule.transform.table, rule.transform.onMiss, AsText(codec, raw);
    TextIsUnique(codec, table, raw);
    assert Move(codec, rule, raw, def) == Value(value) <==> MakesEntry(codec, def, table, onMiss, raw, text, value);
  }

  lemma {:induction false} ListedUnlessUnlisted(codec: Codec, table: map<string, string>, items: seq<Json>, i: nat,
                                                text: string, j: nat, other: string)
    requires FirstUnlisted(codec, table, items, i, text) && FirstUnlisted(codec, table, items, j, other)
    ensures i == j && text == other
  {
    TextIsUnique(codec, table, items[i]);
    TextIsUnique(codec, table, items[j]);
  }

  lemma {:induction false} EntriesRefuse(codec: Codec, def: FieldDef, rule: Rule, items: seq<Json>, text: string)
    requires rule.transform.Translate?
    ensures var moved := Move(codec, rule, Arr(items), def);
            && (moved == Fatal(Warning(rule.source, NoEntry(text))) <==> RefusesOver(codec, rule, Arr(items), text))
            && (moved.Fatal? ==> moved.warning.source == rule.source && moved.warning.loss.NoEntry?)
            && (moved.Fatal? <==> rule.transform.onMiss.Fail?
                                  && !(forall i :: 0 <= i < |items|
                                                   ==> IsListed(codec, rule.transform.table, items[i])))
  {
    var table, onMiss := rule.transform.table, rule.transform.onMiss;
    if onMiss.Fail? {
      RefusedAtFirstUnlisted(codec, table, items);
      var translated := TranslateItems(codec, table, onMiss, items);
      if translated.Err? {
        var i: nat :| FirstUnlisted(codec, table, items, i, translated.error);
        forall j: nat | FirstUnlisted(codec, table, items, j, text)
          ensures text == translated.error
        {
          ListedUnlessUnlisted(codec, table, items, i, translated.error, j, text);
        }
      } else {
        forall j: nat | FirstUnlisted(codec, table, items, j, text)
          ensures false
        {
          TextIsUnique(codec, table, items[j]);
        }
      }
    } else {
      ItemsTranslate(codec, table, onMiss, items);
    }
  }

  lemma {:induction false} EntriesMake(codec: Codec, def: FieldDef, rule: Rule, items: seq<Json>, value: Json,
                                       loss: Loss)
    requires rule.transform.Translate?
    ensures var moved := Move(codec, rule, Arr(items), def);
            && (moved == Value(value) <==> Makes(codec, def, rule, Arr(items), value))
            && (moved == Dropped(Warning(rule.source, loss)) <==> ObjectsTo(codec, def, rule, Arr(items), loss))
            && (moved.Dropped? ==> moved.warning.source == rule.source)
  {
    var table, onMiss := rule.transform.table, rule.transform.onMiss;
    EntriesRefuse(codec, def, rule, items, "");
    if TranslateItems(codec, table, onMiss, items).Ok? {
      var values := ItemsAreKept(codec, table, onMiss, items);
      forall others | AllComeTo(codec, table, onMiss.Drop?, items, others)
        ensures others == values
      {
        SameComing(codec, table, onMiss.Drop?, items, values, others);
      }
      assert MakesEntries(codec, def, table, onMiss, items, values, value) <==> Fits(def, Somes(values), value);
    }
  }

  /** A rule meets a value: its target may be written, and its source carries something. */
  ghost predicate Meets(defs: seq<FieldDef>, record: Record, rule: Rule, def: FieldDef, raw: Json) {
    && Defines(defs, rule.target, def) && !def.readOnly && !rule.transform.Constant?
    && Field(rule.source, raw) in record && !IsNothing(raw)
  }

  lemma {:induction false} MoveIff(codec: Codec, def: FieldDef, rule: Rule, raw: Json, value: Json, loss: Loss)
    requires !rule.transform.Constant?
    ensures var moved := Move(codec, rule, raw, def);
            && (moved == Value(value) <==> Makes(codec, def, rule, raw, value))
            && (moved == Dropped(Warning(rule.source, loss)) <==> ObjectsTo(codec, def, rule, raw, loss))
            && (moved == Fatal(Warning(rule.source, loss))
                <==> loss.NoEntry? && RefusesOver(codec, rule, raw, loss.text))
            && (moved.Dropped? || moved.Fatal? ==> moved.warning.source == rule.source)
  {
    match rule.transform
    case Copy =>
    case Split(_) =>
      SplitMakes(codec, def, rule, raw, value);
      SplitObjects(codec, def, rule, raw, loss);
    case Join(_) => JoinMakes(codec, def, rule, raw, value);
    case Date(_) => DateMakes(codec, def, rule, raw, value, loss);
    case Translate(_, _) =>
      if raw.Arr? {
        EntriesMake(codec, def, rule, raw.items, value, loss);
        EntriesRefuse(codec, def, rule, raw.items, if loss.NoEntry? then loss.text else "");
      } else {
        EntryMakes(codec, def, rule, raw, value, loss);
      }
  }

  // ---------- what becomes of a record ----------

  /** A rule puts a value into its target. */
  ghost predicate Puts(codec: Codec, defs: seq<FieldDef>, record: Record, rule: Rule, value: Json) {
    if rule.transform.Constant? then
      value == rule.transform.value && exists def :: Defines(defs, rule.target, def) && !def.readOnly
    else exists def, raw :: Meets(defs, record, rule, def, raw) && Makes(codec, def, rule, raw, value)
  }

  /** A rule says something was lost. */
  ghost predicate Says(codec: Codec, defs: seq<FieldDef>, record: Record, rule: Rule, loss: Loss) {
    || (loss == UnknownTarget(rule.target) && forall i :: 0 <= i < |defs| ==> defs[i].key != rule.target)
    || (loss == ReadOnlyTarget(rule.target) && exists def :: Defines(defs, rule.target, def) && def.readOnly)
    || exists def, raw :: Meets(defs, record, rule, def, raw) && ObjectsTo(codec, def, rule, raw, loss)
  }

  /** A rule refuses the record over a text. */
  ghost predicate Refuses(codec: Codec, defs: seq<FieldDef>, record: Record, rule: Rule, text: string) {
    exists def, raw :: Meets(defs, record, rule, def, raw) && RefusesOver(codec, rule, raw, text)
  }

  lemma {:induction false} OneDefinition(defs: seq<FieldDef>, key: string, def: FieldDef)
    requires Defines(defs, key, def)
    ensures forall other :: Defines(defs, key, other) ==> other == def
  {
    DefForIff(defs, key, def);
    forall other | Defines(defs, key, other)
      ensures other == def
    {
      DefForIff(defs, key, other);
    }
  }

  lemma {:induction false} NoDefinition(defs: seq<FieldDef>, key: string)
    ensures DefFor(defs, key) == None <==> forall i :: 0 <= i < |defs| ==> defs[i].key != key
    ensures DefFor(defs, key).Some? ==> Defines(defs, key, DefFor(defs, key).value)
  {
    if DefFor(defs, key).Some? {
      DefForIff(defs, key, DefFor(defs, key).value);
    }
    if defs != [] {
      NoDefinition(defs[1..], key);
      assert forall i :: 0 <= i < |defs[1..]| ==> defs[1..][i] == defs[i + 1];
      if forall i :: 0 <= i < |defs[1..]| ==> defs[1..][i].key != key {
        forall i | 0 < i < |defs|
          ensures defs[i].key != key
        {
          assert defs[i] == defs[1..][i - 1];
        }
      }
    }
  }

  lemma {:induction false} OneValue(record: Record, name: string)
    ensures FieldValue(record, name).Some? ==> Field(name, FieldValue(record, name).value) in record
    ensures forall raw :: Field(name, raw) in record ==> FieldValue(record, name) == Some(raw)
  {
    if FieldValue(record, name).Some? {
      FieldValueIff(record, name, FieldValue(record, name).value);
    }
    forall raw | Field(name, raw) in record
      ensures FieldValue(record, name) == Some(raw)
    {
      FieldValueIff(record, name, raw);
    }
  }

  /** A rule that meets a value does with it what it is to do. */
  lemma {:induction false} MeetingIff(codec: Codec, defs: seq<FieldDef>, record: Record, rule: Rule, value: Json,
                                      loss: Loss,
                                      def: FieldDef, raw: Json)
    requires Meets(defs, record, rule, def, raw)
    ensures var effect := EffectOf(codec, defs, record, rule);
            && (effect == Write(value) <==> Puts(codec, defs, record, rule, value))
            && (effect == Warn(Warning(rule.source, loss)) <==> Says(codec, defs, record, rule, loss))
            && (effect == Stop(Warning(rule.source, loss))
                <==> loss.NoEntry? && Refuses(codec, defs, record, rule, loss.text))
            && (effect.Warn? || effect.Stop? ==> effect.warning.source == rule.source)
  {
    OneDefinition(defs, rule.target, def);
    DefForIff(defs, rule.target, def);
    OneValue(record, rule.source);
    MoveIff(codec, def, rule, raw, value, loss);
    NoDefinition(defs, rule.target);
    assert forall d, r :: Meets(defs, record, rule, d, r) ==> d == def && r == raw;
  }

  lemma {:induction false} RuleIff(codec: Codec, defs: seq<FieldDef>, record: Record, rule: Rule, value: Json,
                                   loss: Loss)
    ensures var effect := EffectOf(codec, defs, record, rule);
            && (effect == Write(value) <==> Puts(codec, defs, record, rule, value))
            && (effect == Warn(Warning(rule.source, loss)) <==> Says(codec, defs, record, rule, loss))
            && (effect == Stop(Warning(rule.source, loss))
                <==> loss.NoEntry? && Refuses(codec, defs, record, rule, loss.text))
            && (effect.Warn? || effect.Stop? ==> effect.warning.source == rule.source)
  {
    if def, raw :| Meets(defs, record, rule, def, raw) {
      MeetingIff(codec, defs, record, rule, value, loss, def, raw);
    } else {
      NoDefinition(defs, rule.target);
      OneValue(record, rule.source);
      var defined := DefFor(defs, rule.target);
      if defined.Some? {
        OneDefinition(defs, rule.target, defined.value);
        var raw := FieldValue(record, rule.source);
        assert raw.Some? && !defined.value.readOnly && !rule.transform.Constant?
               ==> IsNothing(raw.value) || Meets(defs, record, rule, defined.value, raw.value);
      }
    }
  }

  /** A rule is heard when neither it nor any rule before it refuses the record. */
  ghost predicate Heard(codec: Codec, defs: seq<FieldDef>, record: Record, rules: seq<Rule>, j: int) {
    0 <= j < |rules| && forall i, text :: 0 <= i <= j ==> !Refuses(codec, defs, record, rules[i], text)
  }

  lemma {:induction false} StopsIff(codec: Codec, defs: seq<FieldDef>, record: Record, rule: Rule)
    ensures EffectOf(codec, defs, record, rule).Stop? <==> exists text :: Refuses(codec, defs, record, rule, text)
  {
    var effect := EffectOf(codec, defs, record, rule);
    if effect.Stop? {
      RuleIff(codec, defs, record, rule, Null, effect.warning.loss);
      assert Refuses(codec, defs, record, rule, effect.warning.loss.text);
    }
    if text :| Refuses(codec, defs, record, rule, text) {
      RuleIff(codec, defs, record, rule, Null, NoEntry(text));
    }
  }

  /** The rules a record is put through are the ones that are heard. */
  lemma {:induction false} HeededAreHeard(codec: Codec, defs: seq<FieldDef>, record: Record, rules: seq<Rule>)
    ensures var heeded := Heeded(codec, defs, record, rules);
            && heeded <= rules && forall j :: 0 <= j < |rules|
                                              ==> (Heard(codec, defs, record, rules, j) <==> j < |heeded|)
  {
    var heeded := Heeded(codec, defs, record, rules);
    HeededSpec(codec, defs, record, rules);
    forall j | 0 <= j < |rules|
      ensures Heard(codec, defs, record, rules, j) <==> j < |heeded|
    {
      if j < |heeded| {
        forall i, text | 0 <= i <= j
          ensures !Refuses(codec, defs, record, rules[i], text)
        {
          StopsIff(codec, defs, record, heeded[i]);
        }
      } else {
        StopsIff(codec, defs, record, rules[|heeded|]);
      }
    }
  }

  lemma {:induction false} LastWrittenIff(codec: Codec, defs: seq<FieldDef>, record: Record, rules: seq<Rule>,
                                          key: string,
                                          value: Json)
    ensures LastWritten(codec, defs, record, rules, key) == Some(value)
            <==> exists j :: WritesLast(codec, defs, record, rules, key, value, j)
  {
    if rules != [] {
      var rest := rules[1..];
      LastWrittenIff(codec, defs, record, rest, key, value);
      assert forall i :: 0 <= i < |rest| ==> rest[i] == rules[i + 1];
      if j :| WritesLast(codec, defs, record, rest, key, value, j) {
        assert WritesLast(codec, defs, record, rules, key, value, j + 1);
      }
      if j :| WritesLast(codec, defs, record, rules, key, value, j) {
        if j > 0 {
          assert rest[j - 1] == rules[j];
          assert WritesLast(codec, defs, record, rest, key, value, j - 1);
        } else {
          NoneWritten(codec, defs, record, rest, key);
        }
      }
      if LastWritten(codec, defs, record, rest, key).None? {
        NoneWritten(codec, defs, record, rest, key);
        assert LastWritten(codec, defs, record, rules, key) == Some(value)
               ==> WritesLast(codec, defs, record, rules, key, value, 0);
      }
    }
  }

  ghost predicate WritesLast(codec: Codec, defs: seq<FieldDef>, record: Record, rules: seq<Rule>, key: string,
                             value: Json,
                             j: int) {
    && 0 <= j < |rules| && rules[j].target == key && Written(codec, defs, record, rules[j]) == Some(value)
    && forall m :: j < m < |rules| && rules[m].target == key ==> Written(codec, defs, record, rules[m]) == None
  }

  lemma {:induction false} NoneWritten(codec: Codec, defs: seq<FieldDef>, record: Record, rules: seq<Rule>, key: string)
    ensures LastWritten(codec, defs, record, rules, key) == None
            <==> forall m :: 0 <= m < |rules| && rules[m].target == key
                             ==> Written(codec, defs, record, rules[m]) == None
  {
    if rules != [] {
      var rest := rules[1..];
      NoneWritten(codec, defs, record, rest, key);
      assert forall i :: 0 <= i < |rest| ==> rest[i] == rules[i + 1];
      if forall m :: 0 <= m < |rest| && rest[m].target == key ==> Written(codec, defs, record, rest[m]) == None {
        forall m | 0 < m < |rules| && rules[m].target == key
          ensures Written(codec, defs, record, rules[m]) == None
        {
          assert rules[m] == rest[m - 1];
        }
      }
    }
  }

  /** A heard rule puts a value into a field, and no heard rule after it puts any there. */
  ghost predicate PutsLast(codec: Codec, defs: seq<FieldDef>, record: Record, rules: seq<Rule>, key: string,
                           value: Json,
                           j: int) {
    && Heard(codec, defs, record, rules, j) && rules[j].target == key && Puts(codec, defs, record, rules[j], value)
    && forall m, other :: j < m < |rules| && rules[m].target == key && Heard(codec, defs, record, rules, m)
                          ==> !Puts(codec, defs, record, rules[m], other)
  }

  lemma {:induction false} WrittenIff(codec: Codec, defs: seq<FieldDef>, record: Record, rule: Rule)
    ensures forall value :: Written(codec, defs, record, rule) == Some(value)
                            <==> Puts(codec, defs, record, rule, value)
  {
    forall value
      ensures Written(codec, defs, record, rule) == Some(value) <==> Puts(codec, defs, record, rule, value)
    {
      RuleIff(codec, defs, record, rule, value, Unmapped);
    }
  }

  lemma {:induction false} PutsLastIff(codec: Codec, defs: seq<FieldDef>, record: Record, rules: seq<Rule>, key: string,
                                       value: Json, j: int)
    ensures WritesLast(codec, defs, record, Heeded(codec, defs, record, rules), key, value, j)
            <==> PutsLast(codec, defs, record, rules, key, value, j)
  {
    var heeded := Heeded(codec, defs, record, rules);
    HeededAreHeard(codec, defs, record, rules);
    forall m | 0 <= m < |heeded|
      ensures heeded[m] == rules[m]
      ensures Written(codec, defs, record, heeded[m]) == None
              <==> forall other :: !Puts(codec, defs, record, rules[m], other)
      ensures Written(codec, defs, record, heeded[m]) == Some(value) <==> Puts(codec, defs, record, rules[m], value)
    {
      WrittenIff(codec, defs, record, rules[m]);
    }
  }

  /** The whole payload of any record, refused or not: a field holds a value exactly when some heard rule aimed at it
      puts that value there, as its transform is to make it of the field it reads, and no heard rule after it puts
      another. */
  lemma {:induction false} PayloadHoldsIff(codec: Codec, crosswalk: Crosswalk, record: Record, defs: seq<FieldDef>,
                                           key: string, value: Json)
    ensures HeldIn(Apply(codec, crosswalk, record, defs).payload, key) == Some(value)
            <==> exists j :: PutsLast(codec, defs, record, crosswalk.rules, key, value, j)
  {
    var heeded := Heeded(codec, defs, record, crosswalk.rules);
    PayloadIsTheLastWrite(codec, crosswalk, record, defs, key, "");
    LastWrittenIff(codec, defs, record, heeded, key, value);
    forall j
      ensures WritesLast(codec, defs, record, heeded, key, value, j)
              <==> PutsLast(codec, defs, record, crosswalk.rules, key, value, j)
    {
      PutsLastIff(codec, defs, record, crosswalk.rules, key, value, j);
    }
    if j :| WritesLast(codec, defs, record, heeded, key, value, j) {
      assert PutsLast(codec, defs, record, crosswalk.rules, key, value, j);
    }
  }

  /** A record is refused exactly when some rule refuses it, and it is the first that does which it names, with the
      text it was over. */
  lemma {:induction false} RefusedIff(codec: Codec, crosswalk: Crosswalk, record: Record, defs: seq<FieldDef>,
                                      refusal: Warning)
    ensures Apply(codec, crosswalk, record, defs).fatal == Some(refusal)
            <==> exists j :: RefusesFirst(codec, defs, record, crosswalk.rules, refusal, j)
  {
    var rules := crosswalk.rules;
    var heeded := Heeded(codec, defs, record, rules);
    var fatal := Apply(codec, crosswalk, record, defs).fatal;
    HeededSpec(codec, defs, record, rules);
    RefusalCutsShort(codec, defs, record, rules, NOTHING_MAPPED);
    if j :| RefusesFirst(codec, defs, record, rules, refusal, j) {
      RuleIff(codec, defs, record, rules[j], Null, refusal.loss);
      FirstStop(codec, defs, record, rules, j);
    }
    if fatal == Some(refusal) {
      RuleIff(codec, defs, record, rules[|heeded|], Null, refusal.loss);
      forall i, text | 0 <= i < |heeded|
        ensures !Refuses(codec, defs, record, rules[i], text)
      {
        StopsIff(codec, defs, record, heeded[i]);
      }
      assert RefusesFirst(codec, defs, record, rules, refusal, |heeded|);
    }
  }

  ghost predicate RefusesFirst(codec: Codec, defs: seq<FieldDef>, record: Record, rules: seq<Rule>, refusal: Warning,
                               j: int) {
    && 0 <= j < |rules| && refusal.source == rules[j].source && refusal.loss.NoEntry?
    && Refuses(codec, defs, record, rules[j], refusal.loss.text)
    && forall i, text :: 0 <= i < j ==> !Refuses(codec, defs, record, rules[i], text)
  }

  lemma {:induction false} FirstStop(codec: Codec, defs: seq<FieldDef>, record: Record, rules: seq<Rule>, j: int)
    requires 0 <= j < |rules| && EffectOf(codec, defs, record, rules[j]).Stop?
    requires forall i, text :: 0 <= i < j ==> !Refuses(codec, defs, record, rules[i], text)
    ensures |Heeded(codec, defs, record, rules)| == j
  {
    var heeded := Heeded(codec, defs, record, rules);
    HeededSpec(codec, defs, record, rules);
    if |heeded| < j {
      StopsIff(codec, defs, record, rules[|heeded|]);
    }
  }

  lemma {:induction false} RulesWarn(codec: Codec, defs: seq<FieldDef>, record: Record, rules: seq<Rule>,
                                     mapped: Mapped,
                                     warning: Warning)
    requires ApplyRules(codec, defs, record, rules, mapped).fatal.None?
    ensures warning in ApplyRules(codec, defs, record, rules, mapped).warnings
            <==> warning in mapped.warnings
                 || exists j :: 0 <= j < |rules| && EffectOf(codec, defs, record, rules[j]) == Warn(warning)
  {
    if rules != [] {
      var rest := rules[1..];
      RulesWarn(codec, defs, record, rest, Affect(mapped, rules[0].target, EffectOf(codec, defs, record, rules[0])),
                warning);
      assert forall i :: 0 <= i < |rest| ==> rest[i] == rules[i + 1];
      if j :| 0 <= j < |rules| && EffectOf(codec, defs, record, rules[j]) == Warn(warning) {
        assert j > 0 ==> rest[j - 1] == rules[j];
      }
    }
  }

  lemma {:induction false} UnmappedWarningsAreThat(crosswalk: Crosswalk, fields: seq<Field>)
    ensures forall warning :: warning in UnmappedWarnings(crosswalk, fields) ==> warning.loss.Unmapped?
  {
    if fields != [] {
      UnmappedWarningsAreThat(crosswalk, fields[1..]);
    }
  }

  /** A record's warnings, but for unmapped fields, are exactly what its heard rules say. */
  lemma {:induction false} WarnedIff(codec: Codec, crosswalk: Crosswalk, record: Record, defs: seq<FieldDef>,
                                     warning: Warning)
    requires !warning.loss.Unmapped?
    ensures warning in Apply(codec, crosswalk, record, defs).warnings
            <==> exists j :: WarnsHeard(codec, defs, record, crosswalk.rules, warning, j)
  {
    var rules := crosswalk.rules;
    var heeded := Heeded(codec, defs, record, rules);
    HeededAreHeard(codec, defs, record, rules);
    RefusalCutsShort(codec, defs, record, rules, NOTHING_MAPPED);
    RulesWarn(codec, defs, record, heeded, NOTHING_MAPPED, warning);
    UnmappedWarningsAreThat(crosswalk, record);
    forall j | 0 <= j < |heeded|
      ensures EffectOf(codec, defs, record, heeded[j]) == Warn(warning)
              <==> WarnsHeard(codec, defs, record, rules, warning, j)
    {
      RuleIff(codec, defs, record, rules[j], Null, warning.loss);
    }
    if j :| WarnsHeard(codec, defs, record, rules, warning, j) {
      assert EffectOf(codec, defs, record, heeded[j]) == Warn(warning);
    }
  }

  ghost predicate WarnsHeard(codec: Codec, defs: seq<FieldDef>, record: Record, rules: seq<Rule>, warning: Warning,
                             j: int) {
    && Heard(codec, defs, record, rules, j) && rules[j].source == warning.source
    && Says(codec, defs, record, rules[j], warning.loss)
  }

  // ---------- in particular ----------

  /** No heard rule after this one has the same target. */
  ghost predicate IsLastAimed(codec: Codec, defs: seq<FieldDef>, record: Record, rules: seq<Rule>, j: int) {
    && Heard(codec, defs, record, rules, j)
    && forall m :: j < m < |rules| && Heard(codec, defs, record, rules, m) ==> rules[m].target != rules[j].target
  }

  /** A word with an entry arrives as its entry. */
  lemma {:induction false} EntryArrives(codec: Codec, crosswalk: Crosswalk, record: Record, defs: seq<FieldDef>, j: int,
                                        def: FieldDef, s: string)
    requires IsLastAimed(codec, defs, record, crosswalk.rules, j)
    requires Meets(defs, record, crosswalk.rules[j], def, Str(s)) && crosswalk.rules[j].transform.Translate?
    requires Trim(s) in crosswalk.rules[j].transform.table
    ensures var rule := crosswalk.rules[j];
            HeldIn(Apply(codec, crosswalk, record, defs).payload, rule.target)
            == Some(if def.multivalued then Arr([Str(rule.transform.table[Trim(s)])])
                    else Str(rule.transform.table[Trim(s)]))
  {
    var rule := crosswalk.rules[j];
    var value := Wrapped(def, Str(rule.transform.table[Trim(s)]));
    assert MakesEntry(codec, def, rule.transform.table, rule.transform.onMiss, Str(s), s, value);
    assert PutsLast(codec, defs, record, crosswalk.rules, rule.target, value, j);
    PayloadHoldsIff(codec, crosswalk, record, defs, rule.target, value);
  }

  /** A date arrives as the library reads it, never as it was written. */
  lemma {:induction false} DateArrives(codec: Codec, crosswalk: Crosswalk, record: Record, defs: seq<FieldDef>, j: int,
                                       def: FieldDef, s: string)
    requires IsLastAimed(codec, defs, record, crosswalk.rules, j)
    requires Meets(defs, record, crosswalk.rules[j], def, Str(s)) && crosswalk.rules[j].transform.Date?
    requires codec.date(Trim(s), crosswalk.rules[j].transform.format).Some?
    ensures var rule := crosswalk.rules[j];
            HeldIn(Apply(codec, crosswalk, record, defs).payload, rule.target)
            == Some(Str(codec.date(Trim(s), rule.transform.format).value))
  {
    var rule := crosswalk.rules[j];
    var value := Str(codec.date(Trim(s), rule.transform.format).value);
    assert MakesDate(codec, rule.transform.format, Str(s), s, value);
    assert PutsLast(codec, defs, record, crosswalk.rules, rule.target, value, j);
    PayloadHoldsIff(codec, crosswalk, record, defs, rule.target, value);
  }

  /** Words that can be told apart when a separator is put between them. */
  ghost predicate AreApart(words: seq<string>, on: string) {
    && (forall i :: 0 <= i < |words| ==> EndsAtFirst(words[i], on) && HasNone(words[i], on))
    && (forall i :: 0 <= i < |words| ==> Trimmed(words[i]) && words[i] != "")
  }

  lemma {:induction false} WordsAreParts(words: seq<string>)
    requires forall i :: 0 <= i < |words| ==> Trimmed(words[i]) && words[i] != ""
    ensures |TrimmedParts(words)| == |words| && forall i :: 0 <= i < |words| ==> TrimmedParts(words)[i] == Str(words[i])
  {
    if words != [] {
      TrimIdempotent(words[0]);
      assert forall i :: 0 <= i < |words[1..]| ==> words[1..][i] == words[i + 1];
      WordsAreParts(words[1..]);
    }
  }

  /** Splitting a join of trimmed words gives the words back, where none holds the separator or runs into it. For a
      separator of one character the words need only not hold it. */
  lemma {:induction false} JoinSplitRoundTrip(words: seq<string>, on: string)
    requires on != "" && AreApart(words, on)
    ensures |TrimmedParts(SplitOn(JoinAll(words, on), on))| == |words|
    ensures forall i :: 0 <= i < |words| ==> TrimmedParts(SplitOn(JoinAll(words, on), on))[i] == Str(words[i])
  {
    if words == [] {
      assert SplitOn("", on) == [""] && Trim("") == "";
      assert [""][1..] == [];
    } else {
      CutsAreSplit(JoinAll(words, on), on, words);
      WordsAreParts(words);
    }
  }

  lemma {:induction false} OneCharacterApart(words: seq<string>, c: char)
    requires forall i :: 0 <= i < |words| ==> c !in words[i] && Trimmed(words[i]) && words[i] != ""
    ensures AreApart(words, [c])
  {
    forall i | 0 <= i < |words|
      ensures EndsAtFirst(words[i], [c]) && HasNone(words[i], [c])
    {
      forall k | 0 <= k < |words[i]|
        ensures !OccursAt(words[i] + [c], [c], k) && !OccursAt(words[i], [c], k)
      {
        assert (words[i] + [c])[k..k + 1][0] == words[i][k] && words[i][k..k + 1][0] == words[i][k];
      }
    }
  }
}
