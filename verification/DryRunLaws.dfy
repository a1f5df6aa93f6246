/** What a dry run asks, counts and notes, said of the stream, the crosswalk and the validator alone
    (bins/damctl/src/main.rs). */
module DryRunLaws {
  import opened Crosswalk
  import opened Damctl
  import opened HistoryLaws
  import opened Imports
  import opened Report
  import opened TransferLaws
  import opened Wrappers

  ghost function MappingOf(port: Port, crosswalk: Crosswalk, entry: Entry): Mapped {
    Apply(port.codec, crosswalk, entry.record, port.defs)
  }

  /** The validator's answer to what an entry is mapped to. */
  ghost function AnswerTo(port: Port, crosswalk: Crosswalk, entry: Entry): Option<seq<string>> {
    port.validate(MappingOf(port, crosswalk, entry).payload)
  }

  ghost function Accepted(port: Port, crosswalk: Crosswalk, entries: seq<Entry>): nat {
    if entries == [] then 0
    else One01(MappingOf(port, crosswalk, entries[0]).fatal.None? && AnswerTo(port, crosswalk, entries[0]).None?)
         + Accepted(port, crosswalk, entries[1..])
  }

  ghost function Invalid(port: Port, crosswalk: Crosswalk, entries: seq<Entry>): nat {
    if entries == [] then 0
    else One01(MappingOf(port, crosswalk, entries[0]).fatal.None? && AnswerTo(port, crosswalk, entries[0]).Some?)
         + Invalid(port, crosswalk, entries[1..])
  }

  ghost function Refused(port: Port, crosswalk: Crosswalk, entries: seq<Entry>): nat {
    if entries == [] then 0
    else One01(MappingOf(port, crosswalk, entries[0]).fatal.Some?) + Refused(port, crosswalk, entries[1..])
  }

  /** How often the validator gave a code, over all the entries, refused ones included. */
  ghost function Rejections(port: Port, crosswalk: Crosswalk, entries: seq<Entry>, code: string): nat {
    if entries == [] then 0
    else multiset(AnswerTo(port, crosswalk, entries[0]).GetOr([]))[code]
         + Rejections(port, crosswalk, entries[1..], code)
  }

  ghost function Named(warnings: seq<Warning>, code: string): nat {
    if warnings == [] then 0 else One01(warnings[0].loss.Code() == code) + Named(warnings[1..], code)
  }

  /** How often a kind of loss was named, by warnings and by refusals. */
  ghost function Losses(port: Port, crosswalk: Crosswalk, entries: seq<Entry>, code: string): nat {
    if entries == [] then 0
    else
      var mapped := MappingOf(port, crosswalk, entries[0]);
      Named(mapped.warnings, code) + One01(mapped.fatal.Some? && mapped.fatal.value.loss.Code() == code)
      + Losses(port, crosswalk, entries[1..], code)
  }

  lemma {:induction false} NamedAreCounted(warnings: seq<Warning>, code: string)
    ensures Occurrences(WarningCodes(warnings), code) == Named(warnings, code)
  {
    if warnings != [] {
      NamedAreCounted(warnings[1..], code);
      assert WarningCodes(warnings) == [warnings[0].loss.Code()] + WarningCodes(warnings[1..]);
    }
  }

  lemma {:induction false} JudgedByTheValidator(port: Port, crosswalk: Crosswalk, entries: seq<Entry>)
    ensures var all := Judgements(Judge(port, crosswalk), entries);
            && CountArriving(all) == Accepted(port, crosswalk, entries)
            && CountRefused(all) == Refused(port, crosswalk, entries)
            && Accepted(port, crosswalk, entries) + Invalid(port, crosswalk, entries)
               + Refused(port, crosswalk, entries)
               == |entries|
  {
    if entries != [] {
      FirstJudgement(Judge(port, crosswalk), entries);
      JudgedByTheValidator(port, crosswalk, entries[1..]);
    }
  }

  lemma {:induction false} CodesAreCounted(port: Port, crosswalk: Crosswalk, entries: seq<Entry>, code: string)
    ensures CountRejection(Judgements(Judge(port, crosswalk), entries), code)
            == Rejections(port, crosswalk, entries, code)
    ensures CountCode(Judgements(Judge(port, crosswalk), entries), code) == Losses(port, crosswalk, entries, code)
  {
    if entries != [] {
      var first := Judge(port, crosswalk)(entries[0].record);
      FirstJudgement(Judge(port, crosswalk), entries);
      CodesOfOne(first.mapped, code);
      CodesAreCounted(port, crosswalk, entries[1..], code);
    }
  }

  lemma {:induction false} CodesOfOne(mapped: Mapped, code: string)
    ensures Occurrences(Codes(mapped), code)
            == Named(mapped.warnings, code) + One01(mapped.fatal.Some? && mapped.fatal.value.loss.Code() == code)
  {
    NamedAreCounted(mapped.warnings, code);
  }

  /** A dry run that can read its stream stores a report of it as the validator sees it: a record would arrive when it
      is not refused and the validator takes what it is mapped to, would be invalid when it is not refused and the
      validator does not, and would fail when it is refused. Every rejection the validator gives is counted under its
      code, and every loss the mapping names under its kind. */
  lemma {:induction false} ReportAsksTheValidator(port: Port, ledger: Ledger, lines: seq<string>, idField: string,
                                                  code: string)
    requires DryRunResult(port, ledger, lines, idField).1
    ensures var stored := DryRunResult(port, ledger, lines, idField).0.report;
            var crosswalk, all := IgnoringId(ledger.crosswalk, idField), Entries(port.read, idField, lines, 0);
            && stored.Some?
            && stored.value.records == |all|
            && stored.value.wouldArrive == Accepted(port, crosswalk, all)
            && stored.value.wouldBeInvalid == Invalid(port, crosswalk, all)
            && stored.value.wouldFail == Refused(port, crosswalk, all)
            && Counted(stored.value.rejections, code) == Rejections(port, crosswalk, all, code)
            && Counted(stored.value.warnings, code) == Losses(port, crosswalk, all, code)
  {
    var crosswalk, all := IgnoringId(ledger.crosswalk, idField), Entries(port.read, idField, lines, 0);
    var judged := Judgements(Judge(port, crosswalk), all);
    DryRunReadsEntries(port, ledger, lines, idField);
    JudgedByTheValidator(port, crosswalk, all);
    CodesAreCounted(port, crosswalk, all, code);
    VerdictsAddUp(EMPTY, crosswalk, judged);
    RejectionsAddUp(EMPTY, crosswalk, judged, code);
    WarningsAddUp(EMPTY, crosswalk, judged, code);
  }

  // ---------- what the rows come to say ----------

  ghost predicate IsLastOfItsId(entries: seq<Entry>, i: nat) {
    i < |entries| && forall j :: i < j < |entries| ==> entries[j].id != entries[i].id
  }

  lemma {:induction false} LastNoteStands(judge: Judging, ledger: Ledger, entries: seq<Entry>, i: nat)
    requires IsLastOfItsId(entries, i)
    ensures var id, mapped := entries[i].id, judge(entries[i].record).mapped;
            var after := NoteAll(judge, ledger, entries);
            && id in after.rows && after.rows[id].warnings == mapped.warnings
            && (!IsMigrated(ledger, id) ==> && after.rows[id].error == NoteOf(mapped)
                                            && after.rows[id].state == if mapped.fatal.Some? then RecordState.Refused
                                                                      else Pending)
    decreases |entries|
  {
    var entry, rest := entries[0], entries[1..];
    var mapped := judge(entry.record).mapped;
    var next := NoteEntry(judge, ledger, entry);
    NoteKeeps(ledger, entry.id, mapped.warnings, NoteOf(mapped));
    SameMigrated(ledger, next);
    if i == 0 {
      NotesKeep(judge, next, rest);
      assert !Mentioned(rest, entry.id);
    } else {
      assert rest[i - 1] == entries[i] && IsLastOfItsId(rest, i - 1);
      LastNoteStands(judge, next, rest, i - 1);
    }
  }

  /** After a dry run, whatever became of its stream, the row of each id it read says what the last record under that
      id was mapped to: its warnings; and, unless it is migrated, that it failed and over which loss exactly when that
      record was refused, and that it is pending with no trouble when it was not. */
  lemma {:induction false} RowsSayTheLastMapping(port: Port, ledger: Ledger, lines: seq<string>, idField: string,
                                                 i: nat)
    requires IsLastOfItsId(Entries(port.read, idField, lines, 0), i)
    ensures var entry := Entries(port.read, idField, lines, 0)[i];
            var mapped := MappingOf(port, IgnoringId(ledger.crosswalk, idField), entry);
            var rows := DryRunResult(port, ledger, lines, idField).0.rows;
            && entry.id in rows && rows[entry.id].warnings == mapped.warnings
            && (!IsMigrated(ledger, entry.id)
                ==> match mapped.fatal
                    case Some(refusal) => rows[entry.id].state == RecordState.Refused
                                          && rows[entry.id].error == Some(NotMapped(refusal.loss))
                    case None => rows[entry.id].state == Pending && rows[entry.id].error == None)
  {
    DryRunReadsEntries(port, ledger, lines, idField);
    LastNoteStands(Judge(port, IgnoringId(ledger.crosswalk, idField)), ledger, Entries(port.read, idField, lines, 0),
                   i);
  }
}
