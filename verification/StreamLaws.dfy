/** What names a record: which id each record of a stream is migrated under, and what that makes of a stream that was
    rearranged between two runs (bins/damctl/src/main.rs). */
module StreamLaws {
  import opened Crosswalk
  import opened Damctl
  import opened Imports
  import opened Json
  import opened ResumeLaws
  import opened Text
  import opened Transfer
  import opened TransferLaws
  import opened Wrappers

  // ---------- the entries of a stream ----------

  /** A record holds a string in a field. */
  ghost predicate Holds(record: Record, field: string, s: string) {
    exists i :: 0 <= i < |record| && record[i] == Field(field, Str(s))
  }

  lemma {:induction false} FieldIs(record: Record, field: string)
    ensures match FieldValue(record, field)
            case None => forall i :: 0 <= i < |record| ==> record[i].name != field
            case Some(value) => exists i :: 0 <= i < |record| && record[i] == Field(field, value)
  {
    if record != [] {
      var rest: Record := record[1..];
      FieldIs(rest, field);
      assert forall i :: 0 <= i < |rest| ==> rest[i] == record[i + 1];
      if FieldValue(record, field).None? {
        forall i | 0 <= i < |record|
          ensures record[i].name != field
        {
          assert i > 0 ==> record[i] == rest[i - 1];
        }
      }
    }
  }

  lemma {:induction false} IdSpec(record: Record, idField: string, position: nat)
    ensures forall s :: Holds(record, idField, s) ==> IdOf(record, idField, position) == s
    ensures (forall s :: !Holds(record, idField, s))
            ==> var id := IdOf(record, idField, position);
                AllDigits(id) && id != "" && NumberOf(id) == position
  {
    FieldIs(record, idField);
    DecimalReadsBack(position);
    var value := FieldValue(record, idField);
    forall s | Holds(record, idField, s)
      ensures IdOf(record, idField, position) == s
    {
      var i :| 0 <= i < |record| && record[i] == Field(idField, Str(s));
      var j :| 0 <= j < |record| && record[j] == Field(idField, value.value);
      assert i == j;
    }
    if value.Some? && value.value.Str? {
      assert Holds(record, idField, value.value.s);
    }
  }

  ghost predicate IsNumeral(id: string, n: nat) {
    AllDigits(id) && id != "" && NumberOf(id) == n
  }

  /** The record of a line, under the string it holds in the id field, or, where it holds none there, under its place
      in decimal. */
  ghost predicate IsEntryOf(read: Reader, idField: string, line: string, place: nat, entry: Entry) {
    && read(line) == Some(entry.record)
    && (forall s :: Holds(entry.record, idField, s) ==> entry.id == s)
    && ((forall s :: !Holds(entry.record, idField, s)) ==> IsNumeral(entry.id, place))
  }

  ghost predicate AreEntriesOf(read: Reader, idField: string, written: seq<string>, before: nat, entries: seq<Entry>) {
    && |entries| <= |written| && (|entries| < |written| ==> read(written[|entries|]).None?)
    && forall k :: 0 <= k < |entries| ==> IsEntryOf(read, idField, written[k], before + k + 1, entries[k])
  }

  lemma {:induction false} OneMoreEntry(read: Reader, idField: string, line: string, written: seq<string>, before: nat,
                                        first: Entry, later: seq<Entry>)
    requires IsEntryOf(read, idField, line, before + 1, first)
    requires AreEntriesOf(read, idField, written, before + 1, later)
    ensures AreEntriesOf(read, idField, [line] + written, before, [first] + later)
  {
    forall k | 0 <= k < |[first] + later|
      ensures IsEntryOf(read, idField, ([line] + written)[k], before + k + 1, ([first] + later)[k])
    {
      if k > 0 {
        assert IsEntryOf(read, idField, written[k - 1], before + 1 + (k - 1) + 1, later[k - 1]);
      }
    }
  }

  /** The entries of a stream are the records of its non-blank lines, in order, up to the first that is not one, each
      under the string it holds in the id field, or else under its place among the records, counted from one. */
  lemma {:induction false} EntriesSpec(read: Reader, idField: string, lines: seq<string>, before: nat)
    ensures var entries, written := Entries(read, idField, lines, before), NonBlank(lines);
            AreEntriesOf(read, idField, written, before, entries)
    decreases |lines|
  {
    if lines != [] {
      var rest := lines[1..];
      if IsBlank(lines[0]) {
        EntriesSpec(read, idField, rest, before);
        assert NonBlank(lines) == NonBlank(rest);
      } else if read(lines[0]).Some? {
        EntriesSpec(read, idField, rest, before + 1);
        var record := read(lines[0]).value;
        var first := Entry(IdOf(record, idField, before + 1), record);
        IdSpec(record, idField, before + 1);
        assert Entries(read, idField, lines, before) == [first] + Entries(read, idField, rest, before + 1);
        assert NonBlank(lines) == [lines[0]] + NonBlank(rest);
        assert IsEntryOf(read, idField, lines[0], before + 1, first);
        OneMoreEntry(read, idField, lines[0], NonBlank(rest), before, first, Entries(read, idField, rest, before + 1));
      } else {
        assert NonBlank(lines)[0] == lines[0];
      }
    }
  }

  // ---------- a stream that was rearranged ----------

  /** Every line that is not blank is a record, and holds a string in the id field. */
  ghost predicate NamesItself(read: Reader, idField: string, lines: seq<string>) {
    forall i :: 0 <= i < |lines| && !IsBlank(lines[i]) ==> IsNamedLine(read, idField, lines[i])
  }

  ghost predicate IsNamedLine(read: Reader, idField: string, line: string) {
    read(line).Some? && exists s :: Holds(read(line).value, idField, s)
  }

  /** The entry of a line that names itself, wherever it stands. */
  ghost function OfLine(read: Reader, idField: string, line: string): seq<Entry> {
    if IsBlank(line) then []
    else match read(line)
      case None => []
      case Some(record) => [Entry(IdOf(record, idField, 0), record)]
  }

  ghost function OfLines(read: Reader, idField: string, lines: seq<string>): seq<Entry> {
    if lines == [] then [] else OfLine(read, idField, lines[0]) + OfLines(read, idField, lines[1..])
  }

  lemma {:induction false} PlaceIsNoMatter(read: Reader, idField: string, lines: seq<string>, n: nat)
    requires NamesItself(read, idField, lines)
    ensures Entries(read, idField, lines, n) == OfLines(read, idField, lines)
    decreases |lines|
  {
    if lines != [] {
      var line, rest := lines[0], lines[1..];
      assert forall i :: 0 <= i < |rest| ==> rest[i] == lines[i + 1];
      assert NamesItself(read, idField, rest);
      if IsBlank(line) {
        PlaceIsNoMatter(read, idField, rest, n);
      } else {
        PlaceIsNoMatter(read, idField, rest, n + 1);
        assert IsNamedLine(read, idField, line);
        IdSpec(read(line).value, idField, n + 1);
        IdSpec(read(line).value, idField, 0);
      }
    }
  }

  lemma {:induction false} OfBoth(read: Reader, idField: string, xs: seq<string>, ys: seq<string>)
    ensures OfLines(read, idField, xs + ys) == OfLines(read, idField, xs) + OfLines(read, idField, ys)
  {
    if xs == [] {
      assert xs + ys == ys;
    } else {
      assert (xs + ys)[1..] == xs[1..] + ys;
      OfBoth(read, idField, xs[1..], ys);
    }
  }

  lemma {:induction false} WithoutOne(lines: seq<string>, j: nat)
    requires j < |lines|
    ensures multiset(lines) == multiset(lines[..j] + lines[j + 1..]) + multiset{lines[j]}
  {
    assert lines == lines[..j] + ([lines[j]] + lines[j + 1..]);
  }

  /** Where the first of some lines stands among others that hold them all. */
  lemma {:induction false} SameLine(lines: seq<string>, others: seq<string>) returns (j: nat)
    requires lines != [] && multiset(lines) <= multiset(others)
    ensures j < |others| && others[j] == lines[0]
    ensures multiset(lines[1..]) <= multiset(others[..j] + others[j + 1..])
  {
    assert multiset(lines)[lines[0]] > 0;
    assert lines[0] in multiset(others);
    j :| j < |others| && others[j] == lines[0];
    assert lines == [lines[0]] + lines[1..];
    WithoutOne(others, j);
    AtMostBoth(multiset(lines[1..]), multiset(others[..j] + others[j + 1..]), multiset{lines[0]});
  }

  lemma {:induction false} TakenOut(read: Reader, idField: string, lines: seq<string>, j: nat)
    requires j < |lines|
    ensures var fewer := lines[..j] + lines[j + 1..];
            EntriesIn(read, idField, lines)
            == EntriesIn(read, idField, fewer) + multiset(OfLine(read, idField, lines[j]))
  {
    var xs, ys := lines[..j], lines[j + 1..];
    assert lines == xs + ([lines[j]] + ys) && ([lines[j]] + ys)[1..] == ys;
    OfBoth(read, idField, xs, ys);
    OfBoth(read, idField, xs, [lines[j]] + ys);
  }

  lemma {:induction false} AtMostBoth<T>(xs: multiset<T>, ys: multiset<T>, zs: multiset<T>)
    ensures xs + zs <= ys + zs <==> xs <= ys
  {
    if xs + zs <= ys + zs {
      forall x
        ensures xs[x] <= ys[x]
      {
        assert (xs + zs)[x] <= (ys + zs)[x];
      }
    }
  }

  ghost function EntriesIn(read: Reader, idField: string, lines: seq<string>): multiset<Entry> {
    multiset(OfLines(read, idField, lines))
  }

  lemma {:induction false} FirstLineIn(read: Reader, idField: string, lines: seq<string>)
    requires lines != []
    ensures EntriesIn(read, idField, lines)
            == EntriesIn(read, idField, lines[1..]) + multiset(OfLine(read, idField, lines[0]))
  {
  }

  /** Lines put in another order, with others anywhere between, are the same entries, with others between. */
  lemma {:induction false} RearrangedLines(read: Reader, idField: string, lines: seq<string>, others: seq<string>)
    requires multiset(lines) <= multiset(others)
    ensures EntriesIn(read, idField, lines) <= EntriesIn(read, idField, others)
    decreases |lines|
  {
    if lines != [] {
      var j := SameLine(lines, others);
      var fewer := others[..j] + others[j + 1..];
      FirstLineIn(read, idField, lines);
      TakenOut(read, idField, others, j);
      RearrangedLines(read, idField, lines[1..], fewer);
      AtMostBoth(EntriesIn(read, idField, lines[1..]), EntriesIn(read, idField, fewer),
                 multiset(OfLine(read, idField, lines[0])));
    }
  }

  lemma {:induction false} RearrangedEntries(read: Reader, idField: string, lines: seq<string>, others: seq<string>)
    requires NamesItself(read, idField, lines) && NamesItself(read, idField, others)
    requires multiset(lines) <= multiset(others)
    ensures multiset(Entries(read, idField, lines, 0)) <= multiset(Entries(read, idField, others, 0))
  {
    PlaceIsNoMatter(read, idField, lines, 0);
    PlaceIsNoMatter(read, idField, others, 0);
    RearrangedLines(read, idField, lines, others);
  }

  /** Where every record names itself, a stream may be put in another order, and added to anywhere, between one run and
      the next. Every record keeps its id, so what the runs before had moved is not moved again: its row names the
      same asset, which is as it was. */
  lemma {:induction false} RearrangedStreamMovesNothingTwice(
    port: Port, w: World, lines: seq<string>, others: seq<string>, idField: string,
    plans: seq<Plan>, later: seq<Plan>, entry: Entry)
    requires MayTransfer(w.ledger.phase) && Sound(w)
    requires NamesItself(port.read, idField, lines) && NamesItself(port.read, idField, others)
    requires multiset(lines) <= multiset(others) && entry in Entries(port.read, idField, lines, 0)
    ensures entry in Entries(port.read, idField, others, 0)
    ensures var between := Repeated(port, w, lines, idField, plans);
            var after := Repeated(port, between, others, idField, later);
            IsMigrated(between.ledger, entry.id)
            ==> && IsMigrated(after.ledger, entry.id)
                && after.ledger.rows[entry.id] == between.ledger.rows[entry.id]
                && between.ledger.rows[entry.id].asset.Some?
                && var a := between.ledger.rows[entry.id].asset.value;
                   a in between.shelf.assets && a in after.shelf.assets
                   && after.shelf.assets[a] == between.shelf.assets[a]
  {
    RearrangedEntries(port.read, idField, lines, others);
    assert multiset(Entries(port.read, idField, lines, 0))[entry] > 0;
    assert multiset(Entries(port.read, idField, others, 0))[entry] > 0;
    ResumedRunsDeliver(port, w, lines, idField, plans);
    RepeatedMayTransfer(port, w, lines, idField, plans);
    ResumedRunsDeliver(port, Repeated(port, w, lines, idField, plans), others, idField, later);
  }

  lemma {:induction false} RepeatedMayTransfer(port: Port, w: World, lines: seq<string>, idField: string,
                                               plans: seq<Plan>)
    requires MayTransfer(w.ledger.phase)
    ensures MayTransfer(Repeated(port, w, lines, idField, plans).ledger.phase)
    decreases |plans|
  {
    if plans != [] {
      TransferKeepsJob(port, w, RequestOf(lines, idField, plans[0]));
      RepeatedMayTransfer(port, AfterPlan(port, w, lines, idField, plans[0]), lines, idField, plans[1..]);
    }
  }

  /** A record that holds no string in the id field is named by its place, so one record put in front of the file
      renames it. Of the records behind it exactly those that name themselves keep their ids. */
  lemma {:induction false} InsertionKeepsIdIff(read: Reader, idField: string, first: string, lines: seq<string>, k: nat)
    requires !IsBlank(first) && read(first).Some? && k < |Entries(read, idField, lines, 0)|
    ensures var before, after := Entries(read, idField, lines, 0), Entries(read, idField, [first] + lines, 0);
            && k + 1 < |after| && after[k + 1].record == before[k].record
            && (after[k + 1].id == before[k].id <==> exists s :: Holds(before[k].record, idField, s))
  {
    var all := [first] + lines;
    assert all[1..] == lines && all[0] == first;
    EntriesSpec(read, idField, lines, 0);
    EntriesSpec(read, idField, lines, 1);
    var before, after := Entries(read, idField, lines, 0), Entries(read, idField, lines, 1);
    assert Entries(read, idField, all, 0)[1..] == after;
    assert |before| == |after| by {
      SameLength(read, idField, lines, 0, 1);
    }
    assert IsEntryOf(read, idField, NonBlank(lines)[k], k + 1, before[k]);
    assert IsEntryOf(read, idField, NonBlank(lines)[k], 1 + k + 1, after[k]);
  }

  lemma {:induction false} SameLength(read: Reader, idField: string, lines: seq<string>, m: nat, n: nat)
    ensures |Entries(read, idField, lines, m)| == |Entries(read, idField, lines, n)|
    decreases |lines|
  {
    if lines != [] {
      if IsBlank(lines[0]) {
        SameLength(read, idField, lines[1..], m, n);
      } else if read(lines[0]).Some? {
        SameLength(read, idField, lines[1..], m + 1, n + 1);
      }
    }
  }
}
