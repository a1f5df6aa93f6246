/** A transfer over all its runs: the order records arrive in, what an interruption costs, and why running the
    same command again is the way to resume. */
module TransferLaws {
  import opened Crosswalk
  import opened Damctl
  import opened Dedupe
  import opened Imports
  import opened Report
  import opened Text
  import opened Transfer
  import opened Wrappers

  // ---------- one reading of a stream ----------

  /** The records of a stream up to the first line that is not one, each with its id. Blank lines hold no place. */
  ghost function Entries(read: Reader, idField: string, lines: seq<string>, before: nat): seq<Entry>
    decreases |lines|
  {
    if lines == [] then []
    else if IsBlank(lines[0]) then Entries(read, idField, lines[1..], before)
    else match read(lines[0])
      case None => []
      case Some(record) =>
        [Entry(IdOf(record, idField, before + 1), record)] + Entries(read, idField, lines[1..], before + 1)
  }

  ghost predicate AllReadable(read: Reader, lines: seq<string>) {
    forall i :: 0 <= i < |lines| && !IsBlank(lines[i]) ==> read(lines[i]).Some?
  }

  lemma {:induction false} ReadableTail(read: Reader, lines: seq<string>)
    requires lines != []
    ensures AllReadable(read, lines)
            <==> (IsBlank(lines[0]) || read(lines[0]).Some?) && AllReadable(read, lines[1..])
  {
    var rest := lines[1..];
    assert forall i :: 0 <= i < |rest| ==> rest[i] == lines[i + 1];
    if AllReadable(read, lines) {
      forall i | 0 <= i < |rest| && !IsBlank(rest[i])
        ensures read(rest[i]).Some?
      {
        assert lines[i + 1] == rest[i];
      }
    }
  }

  ghost function PayloadOf(port: Port, crosswalk: Crosswalk, record: Record): Payload {
    Apply(port.codec, crosswalk, record, port.defs).payload
  }

  ghost function Judgements(judge: Judging, entries: seq<Entry>): (all: seq<Judged>)
    ensures |all| == |entries|
  {
    seq(|entries|, i requires 0 <= i < |entries| => judge(entries[i].record))
  }

  lemma {:induction false} FirstJudgement(judge: Judging, entries: seq<Entry>)
    requires entries != []
    ensures Judgements(judge, entries)[0] == judge(entries[0].record)
    ensures Judgements(judge, entries)[1..] == Judgements(judge, entries[1..])
  {
  }

  ghost function NoteEntry(judge: Judging, ledger: Ledger, entry: Entry): Ledger {
    Noted(ledger, entry.id, judge(entry.record).mapped.warnings, NoteOf(judge(entry.record).mapped))
  }

  ghost function NoteAll(judge: Judging, ledger: Ledger, entries: seq<Entry>): Ledger
    decreases |entries|
  {
    if entries == [] then ledger else NoteAll(judge, NoteEntry(judge, ledger, entries[0]), entries[1..])
  }

  lemma {:induction false} DryRunNotes(read: Reader, crosswalk: Crosswalk, judge: Judging, idField: string,
                                       lines: seq<string>, dry: Dry)
    ensures var entries := Entries(read, idField, lines, dry.discovered);
            var done := DryLoop(read, crosswalk, judge, idField, lines, dry);
            done.ledger == NoteAll(judge, dry.ledger, entries) && done.discovered == dry.discovered + |entries|
    decreases |lines|
  {
    if lines != [] {
      var rest := lines[1..];
      if IsBlank(lines[0]) {
        DryRunNotes(read, crosswalk, judge, idField, rest, dry);
      } else if read(lines[0]).Some? {
        var record := read(lines[0]).value;
        var next := AfterRecord(crosswalk, judge, idField, record, dry);
        var entries := Entries(read, idField, lines, dry.discovered);
        assert entries[0] == Entry(IdOf(record, idField, dry.discovered + 1), record);
        assert entries[1..] == Entries(read, idField, rest, next.discovered);
        assert NoteAll(judge, dry.ledger, entries) == NoteAll(judge, next.ledger, entries[1..]);
        assert DryLoop(read, crosswalk, judge, idField, lines, dry)
               == DryLoop(read, crosswalk, judge, idField, rest, next);
        DryRunNotes(read, crosswalk, judge, idField, rest, next);
      }
    }
  }

  lemma {:induction false} DryRunSucceedsIff(read: Reader, crosswalk: Crosswalk, judge: Judging, idField: string,
                                             lines: seq<string>, dry: Dry)
    requires dry.readable
    ensures DryLoop(read, crosswalk, judge, idField, lines, dry).readable <==> AllReadable(read, lines)
    decreases |lines|
  {
    if lines != [] {
      ReadableTail(read, lines);
      if IsBlank(lines[0]) {
        DryRunSucceedsIff(read, crosswalk, judge, idField, lines[1..], dry);
      } else if read(lines[0]).Some? {
        DryRunSucceedsIff(read, crosswalk, judge, idField, lines[1..],
                          AfterRecord(crosswalk, judge, idField, read(lines[0]).value, dry));
      }
    }
  }

  ghost function AfterRecord(crosswalk: Crosswalk, judge: Judging, idField: string, record: Record, dry: Dry): Dry {
    dry.(ledger := NoteEntry(judge, dry.ledger, Entry(IdOf(record, idField, dry.discovered + 1), record)),
         report := Fold(dry.report, crosswalk, judge(record)), discovered := dry.discovered + 1)
  }

  lemma {:induction false} DryRunReports(read: Reader, crosswalk: Crosswalk, judge: Judging, idField: string,
      lines: seq<string>, dry: Dry)
    requires dry.readable
    ensures DryLoop(read, crosswalk, judge, idField, lines, dry).report
            == FoldAll(dry.report, crosswalk, Judgements(judge, Entries(read, idField, lines, dry.discovered)))
    decreases |lines|
  {
    if lines != [] {
      var rest := lines[1..];
      if IsBlank(lines[0]) {
        DryRunReports(read, crosswalk, judge, idField, rest, dry);
      } else if read(lines[0]).Some? {
        var next := AfterRecord(crosswalk, judge, idField, read(lines[0]).value, dry);
        DryRunReports(read, crosswalk, judge, idField, rest, next);
        var entries := Entries(read, idField, lines, dry.discovered);
        assert entries[1..] == Entries(read, idField, rest, next.discovered);
        FirstJudgement(judge, entries);
      }
    }
  }

  /** The dry run reads a stream as its entries: it judges and notes each of them once, in order, under its id, and
      fails exactly when some line is not a record. */
  lemma {:induction false} DryRunReadsEntries(port: Port, ledger: Ledger, lines: seq<string>, idField: string)
    ensures var judge := Judge(port, IgnoringId(ledger.crosswalk, idField));
            var entries := Entries(port.read, idField, lines, 0);
            var (after, ok) := DryRunResult(port, ledger, lines, idField);
            && (ok <==> AllReadable(port.read, lines))
            && after.rows == NoteAll(judge, ledger, entries).rows
            && (ok ==> && after.report
                          == Some(FoldAll(EMPTY, IgnoringId(ledger.crosswalk, idField), Judgements(judge, entries)))
                       && after.discovered == |entries|)
  {
    var crosswalk := IgnoringId(ledger.crosswalk, idField);
    DryRunNotes(port.read, crosswalk, Judge(port, crosswalk), idField, lines, Dry(ledger, EMPTY, 0, true));
    DryRunSucceedsIff(port.read, crosswalk, Judge(port, crosswalk), idField, lines, Dry(ledger, EMPTY, 0, true));
    DryRunReports(port.read, crosswalk, Judge(port, crosswalk), idField, lines, Dry(ledger, EMPTY, 0, true));
  }

  /** The transfer over entries, line syntax aside. */
  ghost function EntryLoop(ceiling: int, step: Step, entries: seq<Entry>, w: World, tally: Tally): Run
    decreases |entries|
  {
    if entries == [] || tally.migrated >= ceiling then Run(w, tally, Finished)
    else
      var seen := tally.(seen := tally.seen + 1);
      var (after, attempt) := step(w, entries[0], seen.seen);
      match attempt
      case Interrupted => Run(after, seen, Stopped)
      case Done(outcome) => EntryLoop(ceiling, step, entries[1..], after, Tallied(seen, outcome))
  }

  lemma {:induction false} LoopReadsEntries(read: Reader, idField: string, ceiling: int, step: Step,
                                            lines: seq<string>, w: World, tally: Tally)
    ensures var byLine := TransferLoop(read, idField, ceiling, step, lines, w, tally);
            EntryLoop(ceiling, step, Entries(read, idField, lines, tally.seen), w, tally)
            == byLine.(end := if byLine.end.Unreadable? then Finished else byLine.end)
    decreases |lines|
  {
    if lines != [] {
      var rest := lines[1..];
      if IsBlank(lines[0]) {
        LoopReadsEntries(read, idField, ceiling, step, rest, w, tally);
      } else if tally.migrated < ceiling && read(lines[0]).Some? {
        var seen := tally.(seen := tally.seen + 1);
        var entry := Entry(IdOf(read(lines[0]).value, idField, seen.seen), read(lines[0]).value);
        assert Entries(read, idField, lines, tally.seen)[0] == entry;
        assert Entries(read, idField, lines, tally.seen)[1..] == Entries(read, idField, rest, seen.seen);
        var (after, attempt) := step(w, entry, seen.seen);
        if attempt.Done? {
          LoopReadsEntries(read, idField, ceiling, step, rest, after, Tallied(seen, attempt.outcome));
        }
      }
    }
  }

  lemma {:induction false} ReadableStreamsAreRead(read: Reader, idField: string, ceiling: int, step: Step,
                                                  lines: seq<string>, w: World, tally: Tally)
    requires AllReadable(read, lines)
    ensures !TransferLoop(read, idField, ceiling, step, lines, w, tally).end.Unreadable?
    decreases |lines|
  {
    if lines != [] {
      ReadableTail(read, lines);
      if IsBlank(lines[0]) {
        ReadableStreamsAreRead(read, idField, ceiling, step, lines[1..], w, tally);
      } else if tally.migrated < ceiling {
        var seen := tally.(seen := tally.seen + 1);
        var record := read(lines[0]).value;
        var (after, attempt) := step(w, Entry(IdOf(record, idField, seen.seen), record), seen.seen);
        if attempt.Done? {
          ReadableStreamsAreRead(read, idField, ceiling, step, lines[1..], after, Tallied(seen, attempt.outcome));
        }
      }
    }
  }

  /** The transfer reads the same stream as the same entries: record by record the same id as the dry run,
      positional ones included, whatever the ceiling. A line that does not parse only cuts the stream short. */
  lemma {:induction false} TransferReadsEntries(read: Reader, idField: string, ceiling: int, step: Step,
      lines: seq<string>, w: World, tally: Tally)
    ensures var byLine := TransferLoop(read, idField, ceiling, step, lines, w, tally);
            var byEntry := EntryLoop(ceiling, step, Entries(read, idField, lines, tally.seen), w, tally);
            && byLine.world == byEntry.world && byLine.tally == byEntry.tally
            && (byLine.end.Stopped? <==> byEntry.end.Stopped?)
            && (AllReadable(read, lines) ==> byLine == byEntry)
  {
    LoopReadsEntries(read, idField, ceiling, step, lines, w, tally);
    if AllReadable(read, lines) {
      ReadableStreamsAreRead(read, idField, ceiling, step, lines, w, tally);
    }
  }

  // ---------- one record ----------

  /** The row comes to say the asset arrived. */
  ghost predicate Records(w: World, id: string, verdict: Verdict, weather: Weather) {
    !IsMigrated(w.ledger, id) && verdict.Arrives?
    && (weather.Clear? || weather.DiesRecordingRefusal? || weather.DiesBeforeQueueing?)
  }

  /** An asset is made that no row will ever name. */
  ghost predicate Strays(w: World, id: string, verdict: Verdict, weather: Weather) {
    !IsMigrated(w.ledger, id) && verdict.Arrives? && weather.DiesBeforeRecording?
  }

  /** A job, and the library it fills, in step: asset ids are not reused, and every migrated row names an asset. */
  ghost predicate Sound(w: World) {
    && (forall a :: a in w.shelf.assets ==> a < w.shelf.next)
    && (forall id :: IsMigrated(w.ledger, id)
                     ==> w.ledger.rows[id].asset.Some? && w.ledger.rows[id].asset.value in w.shelf.assets)
    && (forall i, j :: IsMigrated(w.ledger, i) && IsMigrated(w.ledger, j) && i != j
                       ==> w.ledger.rows[i].asset != w.ledger.rows[j].asset)
  }

  /** Nothing already migrated is touched, neither its row nor any asset; every row that came to be migrated names an
      asset made meanwhile; and every asset made meanwhile is live. */
  ghost predicate KeepsMigrated(before: World, after: World) {
    && (forall id :: IsMigrated(before.ledger, id)
                     ==> IsMigrated(after.ledger, id) && after.ledger.rows[id] == before.ledger.rows[id])
    && (forall id :: IsMigrated(after.ledger, id) && !IsMigrated(before.ledger, id) && after.ledger.rows[id].asset.Some?
          ==> after.ledger.rows[id].asset.value >= before.shelf.next)
    && (forall a :: a in before.shelf.assets && a < before.shelf.next
          ==> a in after.shelf.assets && after.shelf.assets[a] == before.shelf.assets[a])
    && (forall a :: before.shelf.next <= a < after.shelf.next
                    ==> a in after.shelf.assets && !after.shelf.assets[a].deleted)
    && before.shelf.next <= after.shelf.next
  }

  /** Whatever interrupts it, one record changes at most its own row and adds at most one asset; the asset is named
      by the row, or it strays. */
  ghost predicate OneRecordDone(w: World, id: string, verdict: Verdict, weather: Weather, after: World,
                                attempt: Attempt) {
    && MigratedIds(after.ledger) == MigratedIds(w.ledger) + (if Records(w, id, verdict, weather) then {id} else {})
    && after.shelf.next == w.shelf.next
       + (if Records(w, id, verdict, weather) || Strays(w, id, verdict, weather) then 1 else 0)
    && |after.shelf.queue|
       == |w.shelf.queue| + (if Records(w, id, verdict, weather) && !weather.DiesBeforeQueueing? then 1 else 0)
    && after.ledger.migratedCount == w.ledger.migratedCount + (if Records(w, id, verdict, weather) then 1 else 0)
    && (attempt.Done? && attempt.outcome.Moved? <==> Records(w, id, verdict, weather) && !weather.DiesBeforeQueueing?)
    && (attempt.Done? && attempt.outcome.Skipped? ==> IsMigrated(w.ledger, id))
    && (attempt.Done? && attempt.outcome.NotMoved? ==> verdict.Refuses? && !IsMigrated(w.ledger, id))
    && (weather.Clear? ==> attempt.Done?)
    && (attempt.Interrupted? && weather.DiesBeforeRecording? ==> Strays(w, id, verdict, weather))
    && (attempt.Interrupted? && weather.DiesBeforeQueueing? ==> Records(w, id, verdict, weather))
    && (attempt.Interrupted? && Records(w, id, verdict, weather) ==> weather.DiesBeforeQueueing?)
    && (attempt.Done? ==> !Strays(w, id, verdict, weather))
    && after.ledger.phase == w.ledger.phase && after.ledger.crosswalk == w.ledger.crosswalk
    && after.ledger.report == w.ledger.report && after.ledger.batchSize == w.ledger.batchSize
  }

  lemma {:induction false} OneRecordIds(w: World, id: string, payload: Payload, verdict: Verdict, weather: Weather)
    ensures MigratedIds(One(w, id, payload, verdict, weather).0.ledger)
            == MigratedIds(w.ledger) + (if Records(w, id, verdict, weather) then {id} else {})
  {
    var after := One(w, id, payload, verdict, weather).0;
    assert forall other :: other != id ==> (IsMigrated(after.ledger, other) <==> IsMigrated(w.ledger, other));
    assert IsMigrated(after.ledger, id) <==> IsMigrated(w.ledger, id) || Records(w, id, verdict, weather);
    assert forall x :: x in MigratedIds(after.ledger) <==> IsMigrated(after.ledger, x);
  }

  lemma {:induction false} OneRecord(w: World, id: string, payload: Payload, verdict: Verdict, weather: Weather)
    ensures OneRecordDone(w, id, verdict, weather, One(w, id, payload, verdict, weather).0,
                          One(w, id, payload, verdict, weather).1)
  {
    OneRecordIds(w, id, payload, verdict, weather);
  }

  /** A recorded move: the row names a new asset and is in no trouble, the asset holds the payload laid over what the
      ingest gave it, and its derivation is queued unless the run died first; no other row and no other asset
      changes. */
  lemma {:induction false} RecordedMove(w: World, id: string, payload: Payload, verdict: Verdict, weather: Weather)
    requires Records(w, id, verdict, weather)
    ensures var (after, attempt) := One(w, id, payload, verdict, weather);
            var warnings := if id in w.ledger.rows then w.ledger.rows[id].warnings else [];
            && after.ledger.rows == w.ledger.rows[id := Row(Migrated, Some(w.shelf.next), warnings, None)]
            && IsMigrated(after.ledger, id)
            && after.shelf.assets
               == w.shelf.assets[w.shelf.next := Asset(Patched(verdict.given, payload), false, false)]
            && (if weather.DiesBeforeQueueing? then attempt.Interrupted? && after.shelf.queue == w.shelf.queue
                else attempt == Done(Moved(w.shelf.next)) && after.shelf.queue == w.shelf.queue + [w.shelf.next])
  {
  }

  /** A file that is refused for good: its row says so and why, and nothing else changes. */
  lemma {:induction false} RefusedMove(w: World, id: string, payload: Payload, verdict: Verdict, weather: Weather)
    requires !IsMigrated(w.ledger, id) && verdict.Refuses? && (weather.Clear? || weather.DiesBeforeRecording?
                                                               || weather.DiesBeforeQueueing?)
    ensures var (after, attempt) := One(w, id, payload, verdict, weather);
            && attempt == Done(NotMoved(verdict.reason)) && after.shelf == w.shelf
            && id in after.ledger.rows && after.ledger.rows[id].state == RecordState.Refused
            && after.ledger.rows[id].error == Some(NotTransferred(verdict.reason))
            && OthersKept(w.ledger, after.ledger, id)
  {
  }

  /** A run that is stopped before a record's fate is known leaves it as it was, or, where nothing had been heard of it,
      pending with no trouble. */
  lemma {:induction false} StoppedMove(w: World, id: string, payload: Payload, verdict: Verdict, weather: Weather)
    requires weather.DatabaseDown? || (weather.StoreDown? && !IsMigrated(w.ledger, id))
             || (weather.DiesRecordingRefusal? && verdict.Refuses? && !IsMigrated(w.ledger, id))
    ensures var (after, attempt) := One(w, id, payload, verdict, weather);
            && attempt.Interrupted? && after.shelf == w.shelf && OthersKept(w.ledger, after.ledger, id)
            && (id in w.ledger.rows ==> after.ledger.rows[id] == w.ledger.rows[id])
            && (id !in w.ledger.rows && id in after.ledger.rows
                ==> after.ledger.rows[id] == Row(Pending, None, [], None))
  {
  }

  /** Any other end of one record: no row changes its migrated state, and at most one asset is added, as the ingest
      left it. */
  lemma {:induction false} UnrecordedMove(w: World, id: string, payload: Payload, verdict: Verdict, weather: Weather)
    requires !Records(w, id, verdict, weather)
    ensures var after := One(w, id, payload, verdict, weather).0;
            && (forall x :: IsMigrated(after.ledger, x) <==> IsMigrated(w.ledger, x))
            && (forall x :: IsMigrated(w.ledger, x) ==> after.ledger.rows[x] == w.ledger.rows[x])
            && (after.shelf == w.shelf || (verdict.Arrives? && after.shelf == Ingested(w.shelf, verdict.given)))
  {
  }

  lemma {:induction false} OneKeeps(w: World, id: string, payload: Payload, verdict: Verdict, weather: Weather)
    requires Sound(w)
    ensures Sound(One(w, id, payload, verdict, weather).0) && KeepsMigrated(w, One(w, id, payload, verdict, weather).0)
  {
    OneRecord(w, id, payload, verdict, weather);
    if Records(w, id, verdict, weather) {
      RecordedMove(w, id, payload, verdict, weather);
    } else {
      UnrecordedMove(w, id, payload, verdict, weather);
    }
  }

  // ---------- the order records arrive in ----------

  type Ingest = Record -> Verdict

  /** A step that does to every record what `OneRecordDone` says, under some forecast. */
  ghost predicate Honest(step: Step, ingest: Ingest, forecast: Forecast) {
    forall w: World, entry: Entry, k: nat ::
      OneRecordDone(w, entry.id, ingest(entry.record), forecast(k), step(w, entry, k).0, step(w, entry, k).1)
  }

  lemma {:induction false} SteppingIsHonest(port: Port, crosswalk: Crosswalk, forecast: Forecast)
    ensures Honest(Stepping(port, crosswalk, forecast), port.ingest, forecast)
  {
    forall w: World, entry: Entry, k: nat
      ensures OneRecordDone(w, entry.id, port.ingest(entry.record), forecast(k),
                            Stepping(port, crosswalk, forecast)(w, entry, k).0,
                            Stepping(port, crosswalk, forecast)(w, entry, k).1)
    {
      OneRecord(w, entry.id, PayloadOf(port, crosswalk, entry.record), port.ingest(entry.record), forecast(k));
    }
  }

  /** The ids whose record the ingest takes, as the stream brings them. */
  ghost function Arriving(ingest: Ingest, entries: seq<Entry>): (ids: seq<Option<string>>)
    ensures |ids| == |entries|
  {
    seq(|entries|, i requires 0 <= i < |entries| =>
          if ingest(entries[i].record).Arrives? then Some(entries[i].id) else None)
  }

  /** The transferable ids, each once, in the order of their first transferable record. */
  ghost function Order(ingest: Ingest, entries: seq<Entry>): seq<string> {
    Distinct(Arriving(ingest, entries))
  }

  /** Exactly the first `m` transferable ids have been moved. */
  ghost predicate FirstMoved(ingest: Ingest, entries: seq<Entry>, ledger: Ledger, m: nat) {
    m <= |Order(ingest, entries)| && MigratedIds(ledger) == SetOf(Order(ingest, entries)[..m])
  }

  lemma {:induction false} OrderGrows(ingest: Ingest, all: seq<Entry>, i: nat)
    requires i < |all|
    ensures Order(ingest, all[..i]) <= Order(ingest, all) && Order(ingest, all[..i + 1]) <= Order(ingest, all)
    ensures Order(ingest, all[..i + 1])
            == if ingest(all[i].record).Refuses? || all[i].id in Order(ingest, all[..i]) then Order(ingest, all[..i])
               else Order(ingest, all[..i]) + [all[i].id]
    ensures NoDuplicates(Order(ingest, all))
  {
    var ids := Arriving(ingest, all);
    assert Arriving(ingest, all[..i]) == ids[..i] && Arriving(ingest, all[..i + 1]) == ids[..i + 1];
    DistinctOfPrefix(ids, i);
    DistinctOfPrefix(ids, i + 1);
    DistinctStep(ids, i);
    var _ := DistinctSpec(ids);
  }

  /** Where a transferable record stands in the order, once everything before it has been seen to. */
  lemma {:induction false} NextInOrder(ingest: Ingest, all: seq<Entry>, i: nat, ledger: Ledger, m: nat)
    requires i < |all| && FirstMoved(ingest, all, ledger, m) && |Order(ingest, all[..i])| <= m
    requires ingest(all[i].record).Arrives?
    ensures IsMigrated(ledger, all[i].id) ==> |Order(ingest, all[..i + 1])| <= m
    ensures !IsMigrated(ledger, all[i].id)
            ==> m < |Order(ingest, all)| && Order(ingest, all)[m] == all[i].id && |Order(ingest, all[..i + 1])| == m + 1
  {
    OrderGrows(ingest, all, i);
    var order, before, now := Order(ingest, all), Order(ingest, all[..i]), Order(ingest, all[..i + 1]);
    var id := all[i].id;
    assert IsMigrated(ledger, id) <==> id in MigratedIds(ledger);
    if id in before {
      var q :| 0 <= q < |before| && before[q] == id;
      assert order[..m][q] == id;
    } else {
      assert now[|before|] == id && order[|before|] == id;
      assert |before| < m ==> order[..m][|before|] in order[..m];
      if IsMigrated(ledger, id) {
        var q :| 0 <= q < m && order[..m][q] == id;
        assert order[q] == id;
      }
    }
  }

  lemma {:induction false} MovedOneMore(order: seq<string>, m: nat)
    requires m < |order|
    ensures SetOf(order[..m + 1]) == SetOf(order[..m]) + {order[m]}
  {
    assert order[..m + 1] == order[..m] + [order[m]];
  }

  function Max(a: int, b: int): int {
    if a > b then a else b
  }

  function Min(a: int, b: int): int {
    if a < b then a else b
  }

  /** One record on: the first `m1` have been moved, and everything seen so far has been seen to. */
  lemma {:induction false} RecordMovesInOrder(ingest: Ingest, all: seq<Entry>, i: nat, w: World, weather: Weather,
      after: World, attempt: Attempt, m: nat)
    returns (m1: nat)
    requires i < |all| && FirstMoved(ingest, all, w.ledger, m) && |Order(ingest, all[..i])| <= m
    requires OneRecordDone(w, all[i].id, ingest(all[i].record), weather, after, attempt)
    ensures FirstMoved(ingest, all, after.ledger, m1) && m <= m1 <= m + 1
    ensures attempt.Done? ==> |Order(ingest, all[..i + 1])| <= m1 && (m1 == m + 1 <==> attempt.outcome.Moved?)
  {
    OrderGrows(ingest, all, i);
    m1 := m;
    if ingest(all[i].record).Arrives? {
      NextInOrder(ingest, all, i, w.ledger, m);
      if Records(w, all[i].id, ingest(all[i].record), weather) {
        MovedOneMore(Order(ingest, all), m);
        m1 := m + 1;
      }
    }
  }

  /** Every run moves the next transferable ids in order, never past its ceiling; one that finishes has reached the
      ceiling or the end of the stream. */
  lemma {:induction false} LoopMovesInOrder(step: Step, ingest: Ingest, forecast: Forecast, ceiling: int,
                                            all: seq<Entry>, i: nat, w: World, tally: Tally, m0: nat, m: nat)
    returns (m': nat)
    requires Honest(step, ingest, forecast)
    requires i <= |all| && FirstMoved(ingest, all, w.ledger, m) && |Order(ingest, all[..i])| <= m
    requires m == m0 + tally.migrated
    ensures var run := EntryLoop(ceiling, step, all[i..], w, tally);
            && FirstMoved(ingest, all, run.world.ledger, m')
            && m <= m' <= Max(m, m0 + ceiling)
            && (run.end.Finished? ==> m' == |Order(ingest, all)| || m' >= m0 + ceiling)
    decreases |all| - i
  {
    m' := m;
    if i == |all| {
      assert all[..i] == all;
    } else if tally.migrated < ceiling {
      assert all[i..][0] == all[i] && all[i..][1..] == all[i + 1..];
      var seen := tally.(seen := tally.seen + 1);
      var after, attempt := step(w, all[i], seen.seen).0, step(w, all[i], seen.seen).1;
      assert OneRecordDone(w, all[i].id, ingest(all[i].record), forecast(seen.seen), after, attempt);
      m' := RecordMovesInOrder(ingest, all, i, w, forecast(seen.seen), after, attempt, m);
      if attempt.Done? {
        m' := LoopMovesInOrder(step, ingest, forecast, ceiling, all, i + 1, after, Tallied(seen, attempt.outcome), m0,
                               m');
      }
    }
  }

  // ---------- resuming ----------

  ghost predicate Calm(forecast: Forecast) {
    forall k: nat :: forecast(k).Clear?
  }

  lemma {:induction false} CalmRunsFinish(step: Step, ingest: Ingest, forecast: Forecast, ceiling: int,
      entries: seq<Entry>, w: World, tally: Tally)
    requires Honest(step, ingest, forecast) && Calm(forecast)
    ensures EntryLoop(ceiling, step, entries, w, tally).end.Finished?
    decreases |entries|
  {
    if entries != [] && tally.migrated < ceiling {
      var seen := tally.(seen := tally.seen + 1);
      var (after, attempt) := step(w, entries[0], seen.seen);
      assert OneRecordDone(w, entries[0].id, ingest(entries[0].record), forecast(seen.seen),
                           step(w, entries[0], seen.seen).0, step(w, entries[0], seen.seen).1);
      CalmRunsFinish(step, ingest, forecast, ceiling, entries[1..], after, Tallied(seen, attempt.outcome));
    }
  }

  lemma {:induction false} LoopKeepsJob(step: Step, ingest: Ingest, forecast: Forecast, ceiling: int,
      entries: seq<Entry>, w: World, tally: Tally)
    requires Honest(step, ingest, forecast)
    ensures var after := EntryLoop(ceiling, step, entries, w, tally).world.ledger;
            && after.phase == w.ledger.phase && after.crosswalk == w.ledger.crosswalk
            && after.report == w.ledger.report && after.batchSize == w.ledger.batchSize
    decreases |entries|
  {
    if entries != [] && tally.migrated < ceiling {
      var seen := tally.(seen := tally.seen + 1);
      var (after, attempt) := step(w, entries[0], seen.seen);
      assert OneRecordDone(w, entries[0].id, ingest(entries[0].record), forecast(seen.seen),
                           step(w, entries[0], seen.seen).0, step(w, entries[0], seen.seen).1);
      if attempt.Done? {
        LoopKeepsJob(step, ingest, forecast, ceiling, entries[1..], after, Tallied(seen, attempt.outcome));
      }
    }
  }

  lemma {:induction false} TransferKeepsJob(port: Port, w: World, request: TransferRequest)
    requires request.confirm && MayTransfer(w.ledger.phase)
    ensures var after := TransferResult(port, w, request).0.ledger;
            && after.phase == Transfer && after.crosswalk == w.ledger.crosswalk && after.report == w.ledger.report
            && after.batchSize == w.ledger.batchSize
  {
    var crosswalk := IgnoringId(w.ledger.crosswalk, request.idField);
    var step := Stepping(port, crosswalk, request.forecast);
    var ceiling := Ceiling(request, w.ledger.batchSize);
    var started := w.(ledger := w.ledger.(phase := Transfer));
    var none := Tally(0, 0, 0, 0);
    var all := Entries(port.read, request.idField, request.lines, 0);
    SteppingIsHonest(port, crosswalk, request.forecast);
    TransferReadsEntries(port.read, request.idField, ceiling, step, request.lines, started, none);
    LoopKeepsJob(step, port.ingest, request.forecast, ceiling, all, started, none);
  }

  /** One transfer command, in any weather: if exactly the first `m` transferable ids had been moved, then exactly
      the first `m'` have been afterwards, at most a ceiling further on; in calm weather, a whole ceiling further on
      or all of them. */
  lemma {:induction false} TransferAdvances(port: Port, w: World, request: TransferRequest, m: nat) returns (m': nat)
    requires request.confirm && MayTransfer(w.ledger.phase)
    requires FirstMoved(port.ingest, Entries(port.read, request.idField, request.lines, 0), w.ledger, m)
    ensures var all := Entries(port.read, request.idField, request.lines, 0);
            var after := TransferResult(port, w, request).0.ledger;
            var ceiling := Ceiling(request, w.ledger.batchSize);
            && FirstMoved(port.ingest, all, after, m')
            && m <= m' <= Max(m, m + ceiling)
            && (Calm(request.forecast) ==> m' == Min(Max(m, m + ceiling), |Order(port.ingest, all)|))
            && after.phase == Transfer && after.batchSize == w.ledger.batchSize && after.crosswalk == w.ledger.crosswalk
  {
    var all := Entries(port.read, request.idField, request.lines, 0);
    var crosswalk := IgnoringId(w.ledger.crosswalk, request.idField);
    var step := Stepping(port, crosswalk, request.forecast);
    var ceiling := Ceiling(request, w.ledger.batchSize);
    var started := w.(ledger := w.ledger.(phase := Transfer));
    var none := Tally(0, 0, 0, 0);
    SteppingIsHonest(port, crosswalk, request.forecast);
    TransferReadsEntries(port.read, request.idField, ceiling, step, request.lines, started, none);
    TransferKeepsJob(port, w, request);
    assert MigratedIds(started.ledger) == MigratedIds(w.ledger);
    assert all[0..] == all && all[..0] == [];
    m' := LoopMovesInOrder(step, port.ingest, request.forecast, ceiling, all, 0, started, none, m, m);
    if Calm(request.forecast) {
      CalmRunsFinish(step, port.ingest, request.forecast, ceiling, all, started, none);
    }
    var run := TransferRun(port, w, request);
    assert MigratedIds(Recounted(run.world.ledger)) == MigratedIds(run.world.ledger);
  }

  /** From `m` moved, some runs of ceiling `c` bring it to `m'` of `n`: each calm one a whole ceiling further while
      there is anything left, any one at most a ceiling; with no storm, exactly so far. */
  ghost predicate MovedOn(m: nat, calm: nat, runs: nat, c: nat, n: nat, m': nat) {
    && calm <= runs && Min(m + calm * c, n) <= m' <= Min(m + runs * c, n)
    && (calm == runs ==> m' == Min(m + runs * c, n))
  }

  /** What a run may move is the operator's to say: at most the limit, none under a limit below one, and without a limit
      at most a batch; in calm weather exactly as many as it may, or all that were left. */
  lemma {:induction false} LimitIsKept(port: Port, w: World, request: TransferRequest, m: nat, c: int)
    requires request.confirm && MayTransfer(w.ledger.phase) && Allows(request.limit, w.ledger.batchSize, c)
    requires FirstMoved(port.ingest, Entries(port.read, request.idField, request.lines, 0), w.ledger, m)
    ensures var after := TransferResult(port, w, request).0.ledger;
            var moved := |MigratedIds(after)| - |MigratedIds(w.ledger)|;
            var left := |Order(port.ingest, Entries(port.read, request.idField, request.lines, 0))| - m;
            0 <= moved <= Max(0, c) && (Calm(request.forecast) ==> moved == Min(Max(0, c), left))
  {
    var all := Entries(port.read, request.idField, request.lines, 0);
    var m' := TransferAdvances(port, w, request, m);
    FirstMovedIsThatMany(port.ingest, all, w.ledger, m);
    FirstMovedIsThatMany(port.ingest, all, TransferResult(port, w, request).0.ledger, m');
  }

  lemma {:induction false} FirstMovedIsThatMany(ingest: Ingest, all: seq<Entry>, ledger: Ledger, m: nat)
    requires FirstMoved(ingest, all, ledger, m)
    ensures |MigratedIds(ledger)| == m
  {
    var order := Order(ingest, all);
    var at := DistinctSpec(Arriving(ingest, all));
    SizeOfSet(order[..m]);
  }

  // ---------- what a run counts ----------

  /** A record that is already there when its turn comes: it was before the run, or an earlier record brought its id. */
  ghost predicate IsThere(ingest: Ingest, all: seq<Entry>, i: nat, before: set<string>)
    requires i < |all|
  {
    all[i].id in before || exists j :: 0 <= j < i && all[j].id == all[i].id && ingest(all[j].record).Arrives?
  }

  /** The count a run is to give of its first `n` records: each was already there, or came, or was refused. */
  ghost function CountTo(ingest: Ingest, all: seq<Entry>, n: nat, before: set<string>): Tally
    requires n <= |all|
  {
    if n == 0 then Tally(0, 0, 0, 0)
    else
      var earlier := CountTo(ingest, all, n - 1, before);
      var there, arrives := IsThere(ingest, all, n - 1, before), ingest(all[n - 1].record).Arrives?;
      Tally(earlier.migrated + One01(!there && arrives), earlier.skipped + One01(there),
            earlier.failed + One01(!there && !arrives), n)
  }

  ghost predicate MigratedTo(ingest: Ingest, all: seq<Entry>, n: nat, before: set<string>, now: set<string>)
    requires n <= |all|
  {
    forall id :: id in now
                 <==> id in before || exists j :: 0 <= j < n && all[j].id == id && ingest(all[j].record).Arrives?
  }

  lemma {:induction false} StepCounts(all: seq<Entry>, i: nat, before: set<string>, w: World, ingest: Ingest,
                                      weather: Weather, after: World, attempt: Attempt, tally: Tally)
    requires i < |all| && MigratedTo(ingest, all, i, before, MigratedIds(w.ledger))
    requires OneRecordDone(w, all[i].id, ingest(all[i].record), weather, after, attempt) && attempt.Done?
    requires tally == CountTo(ingest, all, i, before) && tally.seen == i
    ensures MigratedTo(ingest, all, i + 1, before, MigratedIds(after.ledger))
    ensures var next := Tallied(tally.(seen := tally.seen + 1), attempt.outcome);
            next == CountTo(ingest, all, i + 1, before) && next.seen == i + 1
  {
    assert IsMigrated(w.ledger, all[i].id) <==> all[i].id in MigratedIds(w.ledger);
    assert IsThere(ingest, all, i, before) <==> all[i].id in MigratedIds(w.ledger);
    assert MigratedIds(after.ledger)
           == MigratedIds(w.ledger) + if ingest(all[i].record).Arrives? then {all[i].id} else {};
  }

  /** A run that finished counted the records it read. */
  ghost predicate CountedTo(ingest: Ingest, all: seq<Entry>, before: set<string>, run: Run) {
    run.end.Finished? ==> run.tally.seen <= |all| && run.tally == CountTo(ingest, all, run.tally.seen, before)
  }

  lemma {:induction false} LoopCounts(step: Step, ingest: Ingest, forecast: Forecast, ceiling: int, all: seq<Entry>,
                                      i: nat, before: set<string>, w: World, tally: Tally)
    requires Honest(step, ingest, forecast)
    requires i <= |all| && MigratedTo(ingest, all, i, before, MigratedIds(w.ledger))
    requires tally == CountTo(ingest, all, i, before) && tally.seen == i
    ensures CountedTo(ingest, all, before, EntryLoop(ceiling, step, all[i..], w, tally))
    decreases |all| - i
  {
    if i < |all| && tally.migrated < ceiling {
      assert all[i..][0] == all[i] && all[i..][1..] == all[i + 1..];
      var seen := tally.(seen := tally.seen + 1);
      var after, attempt := step(w, all[i], seen.seen).0, step(w, all[i], seen.seen).1;
      assert OneRecordDone(w, all[i].id, ingest(all[i].record), forecast(seen.seen), after, attempt);
      if attempt.Done? {
        StepCounts(all, i, before, w, ingest, forecast(seen.seen), after, attempt, tally);
        LoopCounts(step, ingest, forecast, ceiling, all, i + 1, before, after, Tallied(seen, attempt.outcome));
      }
    }
  }

  lemma {:induction false} TransferCounts(port: Port, w: World, request: TransferRequest)
    requires AllReadable(port.read, request.lines)
    ensures CountedTo(port.ingest, Entries(port.read, request.idField, request.lines, 0), MigratedIds(w.ledger),
                      TransferRun(port, w, request))
  {
    var crosswalk := IgnoringId(w.ledger.crosswalk, request.idField);
    var step := Stepping(port, crosswalk, request.forecast);
    var ceiling := Ceiling(request, w.ledger.batchSize);
    var started := w.(ledger := w.ledger.(phase := Transfer));
    var all := Entries(port.read, request.idField, request.lines, 0);
    SteppingIsHonest(port, crosswalk, request.forecast);
    TransferReadsEntries(port.read, request.idField, ceiling, step, request.lines, started, Tally(0, 0, 0, 0));
    assert MigratedIds(started.ledger) == MigratedIds(w.ledger) && all[0..] == all;
    LoopCounts(step, port.ingest, request.forecast, ceiling, all, 0, MigratedIds(w.ledger), started, Tally(0, 0, 0, 0));
  }

  lemma {:induction false} CountsAddUp(ingest: Ingest, all: seq<Entry>, n: nat, before: set<string>)
    requires n <= |all|
    ensures var tally := CountTo(ingest, all, n, before);
            tally.migrated + tally.skipped + tally.failed == tally.seen == n
  {
    if n > 0 {
      CountsAddUp(ingest, all, n - 1, before);
    }
  }

  /** A run that finishes says of every record it read whether it was already there, came now or was refused, and of no
      other record anything. */
  lemma {:induction false} RunCountsItsRecords(port: Port, w: World, request: TransferRequest)
    requires request.confirm && MayTransfer(w.ledger.phase) && TransferRun(port, w, request).end.Finished?
    requires AllReadable(port.read, request.lines)
    ensures TransferResult(port, w, request).1.Some?
    ensures var all := Entries(port.read, request.idField, request.lines, 0);
            var tally := TransferResult(port, w, request).1.value;
            && tally.seen <= |all| && tally == CountTo(port.ingest, all, tally.seen, MigratedIds(w.ledger))
            && tally.migrated + tally.skipped + tally.failed == tally.seen
  {
    TransferCounts(port, w, request);
    CountsAddUp(port.ingest, Entries(port.read, request.idField, request.lines, 0),
                TransferRun(port, w, request).tally.seen,
                MigratedIds(w.ledger));
  }

  /** A run that finishes leaves both counters agreeing with the rows; one that does not leaves the failed counter to
      drift. */
  lemma {:induction false} FinishedRunRecounts(port: Port, w: World, request: TransferRequest)
    requires TransferResult(port, w, request).1.Some?
    ensures var after := TransferResult(port, w, request).0.ledger;
            after.migratedCount == |MigratedIds(after)| && FailedDrift(after) == 0
  {
    RecountEndsTheDrift(TransferRun(port, w, request).world.ledger);
    assert MigratedIds(TransferResult(port, w, request).0.ledger)
           == MigratedIds(TransferRun(port, w, request).world.ledger);
  }

  lemma {:induction false} OneRunMore(m: nat, m1: nat, m': nat, n: nat, c: nat, calm: bool, calmRest: nat, rest: nat)
    requires m <= m1 <= m + c && m1 <= n && (calm ==> m1 == Min(m + c, n))
    requires MovedOn(m1, calmRest, rest, c, n, m')
    ensures MovedOn(m, (if calm then 1 else 0) + calmRest, rest + 1, c, n, m')
  {
    assert (rest + 1) * c == rest * c + c && (calmRest + 1) * c == calmRest * c + c;
    assert calmRest * c <= rest * c;
  }

  /** One repetition of the command: its limit, and the weather it meets. */
  datatype Plan = Plan(limit: Option<int>, forecast: Forecast)

  /** The world after one repetition. */
  ghost function AfterPlan(port: Port, w: World, lines: seq<string>, idField: string, plan: Plan): World {
    TransferResult(port, w, TransferRequest(lines, idField, plan.limit, true, plan.forecast)).0
  }

  ghost function Repeated(port: Port, w: World, lines: seq<string>, idField: string, plans: seq<Plan>): World
    decreases |plans|
  {
    if plans == [] then w else Repeated(port, AfterPlan(port, w, lines, idField, plans[0]), lines, idField, plans[1..])
  }

  ghost function CalmCount(plans: seq<Plan>): nat {
    if plans == [] then 0 else (if Calm(plans[0].forecast) then 1 else 0) + CalmCount(plans[1..])
  }

  /** What the operator allows a run to move: the limit that was given, or else the job's batch size, at least one. */
  ghost predicate Allows(limit: Option<int>, batchSize: int, c: int) {
    match limit
    case Some(given) => c == given
    case None => if batchSize >= 1 then c == batchSize else c == 1
  }

  ghost predicate CeilingIs(plan: Plan, batchSize: int, c: nat) {
    Allows(plan.limit, batchSize, c)
  }

  /** The transferable ids of a stream. */
  ghost function Transferable(port: Port, lines: seq<string>, idField: string): seq<string> {
    Order(port.ingest, Entries(port.read, idField, lines, 0))
  }

  ghost predicate MovedFirst(port: Port, lines: seq<string>, idField: string, ledger: Ledger, m: nat) {
    FirstMoved(port.ingest, Entries(port.read, idField, lines, 0), ledger, m)
  }

  lemma {:induction false} PlanAdvances(port: Port, w: World, lines: seq<string>, idField: string, plan: Plan, c: nat,
                                        m: nat)
    returns (m1: nat)
    requires MayTransfer(w.ledger.phase) && CeilingIs(plan, w.ledger.batchSize, c)
    requires MovedFirst(port, lines, idField, w.ledger, m)
    ensures var after := AfterPlan(port, w, lines, idField, plan).ledger;
            && MayTransfer(after.phase) && after.batchSize == w.ledger.batchSize
            && after.crosswalk == w.ledger.crosswalk
            && MovedFirst(port, lines, idField, after, m1)
    ensures m <= m1 <= m + c && m1 <= |Transferable(port, lines, idField)|
    ensures Calm(plan.forecast) ==> m1 == Min(m + c, |Transferable(port, lines, idField)|)
  {
    var request := TransferRequest(lines, idField, plan.limit, true, plan.forecast);
    assert Ceiling(request, w.ledger.batchSize) == c;
    m1 := TransferAdvances(port, w, request, m);
  }

  /** The resume contract. Repeat a transfer over one stream with a ceiling of `c`, in any weather, any number of
      times. What has been moved is always the first so many transferable ids, in stream order. Each calm
      repetition moves the next `c` of them, or all that are left; a stormy one moves between none and `c`. So after
      enough calm repetitions exactly the transferable ids have been moved, however many were interrupted, and
      without storms exactly the first min(m + k c, n). */
  lemma {:induction false} ResumptionConverges(port: Port, w: World, lines: seq<string>, idField: string,
                                               plans: seq<Plan>, c: nat, m: nat)
    returns (m': nat)
    requires MayTransfer(w.ledger.phase)
    requires forall plan :: plan in plans ==> CeilingIs(plan, w.ledger.batchSize, c)
    requires MovedFirst(port, lines, idField, w.ledger, m)
    ensures MovedFirst(port, lines, idField, Repeated(port, w, lines, idField, plans).ledger, m')
    ensures MovedOn(m, CalmCount(plans), |plans|, c, |Transferable(port, lines, idField)|, m')
    decreases |plans|
  {
    m' := m;
    if plans != [] {
      var rest := plans[1..];
      assert plans[0] in plans && forall plan :: plan in rest ==> plan in plans;
      var m1 := PlanAdvances(port, w, lines, idField, plans[0], c, m);
      m' := ResumptionConverges(port, AfterPlan(port, w, lines, idField, plans[0]), lines, idField, rest, c, m1);
      OneRunMore(m, m1, m', |Transferable(port, lines, idField)|, c, Calm(plans[0].forecast), CalmCount(rest), |rest|);
    }
  }
}
