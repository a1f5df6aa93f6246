/** A job under every sequence of commands, its own and everybody else's. */
module HistoryLaws {
  import opened Crosswalk
  import opened Damctl
  import opened Imports
  import opened ImportLaws
  import opened Report
  import opened Transfer
  import opened TransferLaws
  import opened Wrappers

  /** The commands of `damctl import`, each with whatever files, definitions and weather it meets, and two things
      other people do to the library meanwhile. */
  datatype Command =
    | LoadFile(file: Option<Crosswalk>)
    | DryRunStream(port: Port, lines: seq<string>, idField: string)
    | TransferStream(source: Port, request: TransferRequest)
    | RollBack(confirm: bool)
    | SetHold(held: AssetId, on: bool)
    | DeleteAsset(deleted: AssetId)

  ghost function Execute(w: World, command: Command): World {
    match command
    case LoadFile(file) => w.(ledger := CrosswalkLoaded(w.ledger, file).0)
    case DryRunStream(port, lines, idField) => w.(ledger := DryRunResult(port, w.ledger, lines, idField).0)
    case TransferStream(source, request) => TransferResult(source, w, request).0
    case RollBack(confirm) => if confirm then RolledBackWorld(w) else w
    case SetHold(a, on) =>
      if a !in w.shelf.assets then w
      else w.(shelf := w.shelf.(assets := w.shelf.assets[a := w.shelf.assets[a].(held := on)]))
    case DeleteAsset(a) =>
      if a !in w.shelf.assets then w
      else w.(shelf := w.shelf.(assets := w.shelf.assets[a := w.shelf.assets[a].(deleted := true)]))
  }

  ghost function History(w: World, commands: seq<Command>): World
    decreases |commands|
  {
    if commands == [] then w else History(Execute(w, commands[0]), commands[1..])
  }

  // ---------- notes ----------

  /** Notes never un-migrate a row and never change which asset it names; they touch no other column of the job. A
      row the notes mention that is not migrated becomes pending or failed, whatever it was; any other row stays. */
  lemma {:induction false} NotesKeep(judge: Judging, ledger: Ledger, entries: seq<Entry>)
    ensures var after := NoteAll(judge, ledger, entries);
            && MigratedIds(after) == MigratedIds(ledger)
            && (forall x :: IsMigrated(ledger, x)
                            ==> IsMigrated(after, x) && after.rows[x].asset == ledger.rows[x].asset)
            && after == ledger.(rows := after.rows)
            && (forall x :: x in ledger.rows ==> x in after.rows)
            && (forall x :: x in ledger.rows && !Mentioned(entries, x) ==> after.rows[x] == ledger.rows[x])
            && (forall x :: Mentioned(entries, x) && !IsMigrated(ledger, x)
                  ==> x in after.rows && (after.rows[x].state == Pending || after.rows[x].state == Refused))
    decreases |entries|
  {
    if entries != [] {
      var entry, rest := entries[0], entries[1..];
      var mapped := judge(entry.record).mapped;
      var next := NoteEntry(judge, ledger, entry);
      NoteKeeps(ledger, entry.id, mapped.warnings, NoteOf(mapped));
      SameMigrated(ledger, next);
      NotesKeep(judge, next, rest);
      forall x
        ensures Mentioned(entries, x) <==> x == entry.id || Mentioned(rest, x)
        ensures x != entry.id ==> Find(next, x) == Find(ledger, x)
      {
        MentionedHereOrLater(entries, x);
      }
    }
  }

  lemma {:induction false} SameMigrated(before: Ledger, after: Ledger)
    requires MigratedIds(after) == MigratedIds(before)
    ensures forall x :: IsMigrated(after, x) <==> IsMigrated(before, x)
  {
    forall x
      ensures IsMigrated(after, x) <==> IsMigrated(before, x)
    {
      assert IsMigrated(after, x) <==> x in MigratedIds(after);
      assert IsMigrated(before, x) <==> x in MigratedIds(before);
    }
  }

  ghost predicate Mentioned(entries: seq<Entry>, id: string) {
    exists i :: 0 <= i < |entries| && entries[i].id == id
  }

  lemma {:induction false} MentionedHereOrLater(entries: seq<Entry>, id: string)
    requires entries != []
    ensures Mentioned(entries, id) <==> id == entries[0].id || Mentioned(entries[1..], id)
  {
    if i :| 0 <= i < |entries| && entries[i].id == id {
      if i > 0 {
        assert entries[1..][i - 1].id == id;
      }
    }
    if i :| 0 <= i < |entries[1..]| && entries[1..][i].id == id {
      assert entries[i + 1].id == id;
    }
  }

  lemma {:induction false} DryRunKeeps(port: Port, ledger: Ledger, lines: seq<string>, idField: string)
    ensures var (after, ok) := DryRunResult(port, ledger, lines, idField);
            && MigratedIds(after) == MigratedIds(ledger)
            && (forall x :: IsMigrated(ledger, x)
                            ==> IsMigrated(after, x) && after.rows[x].asset == ledger.rows[x].asset)
            && after.crosswalk == ledger.crosswalk && after.batchSize == ledger.batchSize
            && after.migratedCount == ledger.migratedCount
            && after.phase == (if ok && ledger.phase == CrosswalkReview then DryRun else ledger.phase)
            && (if ok then after.report.Some?
                else after.report == ledger.report && after.discovered == ledger.discovered)
  {
    var crosswalk := IgnoringId(ledger.crosswalk, idField);
    var judge := Judge(port, crosswalk);
    var entries := Entries(port.read, idField, lines, 0);
    DryRunNotes(port.read, crosswalk, judge, idField, lines, Dry(ledger, EMPTY, 0, true));
    NotesKeep(judge, ledger, entries);
    var (after, ok) := DryRunResult(port, ledger, lines, idField);
    assert after.rows == NoteAll(judge, ledger, entries).rows;
    assert MigratedIds(after) == MigratedIds(NoteAll(judge, ledger, entries));
  }

  // ---------- the invariant ----------

  /** What is true of a job whatever has been done to it: it is in one of five phases; once past review a report is
      stored; rows are migrated only while it is transferring, and then it is counted exactly; and the rows and the
      library are in step. */
  ghost predicate Lawful(w: World) {
    && Sound(w)
    && w.ledger.phase in {Discover, CrosswalkReview, Phase.DryRun, Phase.Transfer, RolledBack}
    && (MayTransfer(w.ledger.phase) ==> w.ledger.report.Some?)
    && (w.ledger.phase != Phase.Transfer ==> MigratedIds(w.ledger) == {})
    && (w.ledger.phase != RolledBack ==> w.ledger.migratedCount == |MigratedIds(w.ledger)|)
  }

  /** What one command may do to a lawful job. */
  ghost predicate LawfulStep(w: World, command: Command, after: World) {
    && Lawful(after)
    && Rank(w.ledger.phase) <= Rank(after.ledger.phase)
    && (w.ledger.report.Some? ==> after.ledger.report.Some?)
    && (command.TransferStream? && !MayTransfer(w.ledger.phase) ==> after == w)
    && (MigratedIds(after.ledger) <= MigratedIds(w.ledger)
        || (command.TransferStream? && command.request.confirm && MayTransfer(w.ledger.phase) && w.ledger.report.Some?))
  }

  lemma {:induction false} SameRowsSameSoundness(w: World, after: World)
    requires Sound(w) && MigratedIds(after.ledger) == MigratedIds(w.ledger)
    requires forall x :: IsMigrated(w.ledger, x)
                         ==> IsMigrated(after.ledger, x) && after.ledger.rows[x].asset == w.ledger.rows[x].asset
    requires after.shelf.next == w.shelf.next && after.shelf.assets.Keys == w.shelf.assets.Keys
    ensures Sound(after)
  {
    assert forall x :: IsMigrated(after.ledger, x) <==> x in MigratedIds(after.ledger);
    assert forall x :: IsMigrated(w.ledger, x) <==> x in MigratedIds(w.ledger);
  }

  lemma {:induction false} LoadIsLawful(w: World, file: Option<Crosswalk>)
    requires Lawful(w)
    ensures LawfulStep(w, LoadFile(file), Execute(w, LoadFile(file)))
  {
    var after := Execute(w, LoadFile(file));
    assert after.ledger.rows == w.ledger.rows;
    assert MigratedIds(after.ledger) == MigratedIds(w.ledger);
    SameRowsSameSoundness(w, after);
  }

  lemma {:induction false} DryRunIsLawful(w: World, port: Port, lines: seq<string>, idField: string)
    requires Lawful(w)
    ensures LawfulStep(w, DryRunStream(port, lines, idField), Execute(w, DryRunStream(port, lines, idField)))
  {
    DryRunKeeps(port, w.ledger, lines, idField);
    SameRowsSameSoundness(w, Execute(w, DryRunStream(port, lines, idField)));
  }

  lemma {:induction false} TransferIsLawful(w: World, source: Port, request: TransferRequest)
    requires Lawful(w)
    ensures LawfulStep(w, TransferStream(source, request), Execute(w, TransferStream(source, request)))
  {
    if request.confirm && MayTransfer(w.ledger.phase) {
      var run := TransferRun(source, w, request);
      var after := TransferResult(source, w, request).0;
      TransferDelivers(source, w, request);
      TransferAccounted(source, w, request);
      TransferKeepsJob(source, w, request);
      assert MigratedIds(Recounted(run.world.ledger)) == MigratedIds(run.world.ledger);
    }
  }

  lemma {:induction false} RollBackIsLawful(w: World, confirm: bool)
    requires Lawful(w)
    ensures LawfulStep(w, RollBack(confirm), Execute(w, RollBack(confirm)))
  {
    if confirm {
      assert MigratedIds(RolledBackWorld(w).ledger) == {};
      assert forall x :: IsMigrated(RolledBackWorld(w).ledger, x) <==> x in MigratedIds(RolledBackWorld(w).ledger);
    }
  }

  lemma {:induction false} OthersAreLawful(w: World, command: Command)
    requires Lawful(w) && (command.SetHold? || command.DeleteAsset?)
    ensures LawfulStep(w, command, Execute(w, command))
  {
    SameRowsSameSoundness(w, Execute(w, command));
  }

  /** Every command keeps the law; none rewinds the phase or loses the report; a transfer that is not due changes
      nothing; and none but a confirmed transfer, of a job whose report is already stored, migrates anything. */
  lemma {:induction false} CommandIsLawful(w: World, command: Command)
    requires Lawful(w)
    ensures LawfulStep(w, command, Execute(w, command))
  {
    match command
    case LoadFile(file) => LoadIsLawful(w, file);
    case DryRunStream(port, lines, idField) => DryRunIsLawful(w, port, lines, idField);
    case TransferStream(source, request) => TransferIsLawful(w, source, request);
    case RollBack(confirm) => RollBackIsLawful(w, confirm);
    case SetHold(_, _) => OthersAreLawful(w, command);
    case DeleteAsset(_) => OthersAreLawful(w, command);
  }

  /** Safety over every history: from a new job in any library, any commands in any order, interrupted anywhere,
      leave a lawful job. In particular nothing is ever migrated unless a report was stored before, the phase never
      goes back, and once rolled back a job stays rolled back with nothing migrated. */
  lemma {:induction false} EveryHistoryIsLawful(w: World, commands: seq<Command>)
    requires Lawful(w)
    ensures Lawful(History(w, commands))
    ensures Rank(w.ledger.phase) <= Rank(History(w, commands).ledger.phase)
    ensures w.ledger.phase == RolledBack ==> History(w, commands).ledger.phase == RolledBack
    ensures MigratedIds(History(w, commands).ledger) != {} ==> History(w, commands).ledger.report.Some?
    decreases |commands|
  {
    if commands != [] {
      CommandIsLawful(w, commands[0]);
      EveryHistoryIsLawful(Execute(w, commands[0]), commands[1..]);
    }
  }

  lemma {:induction false} NewJobIsLawful(batchSize: int, shelf: Shelf)
    requires forall a :: a in shelf.assets ==> a < shelf.next
    ensures Lawful(World(NewJob(batchSize), shelf))
  {
    assert MigratedIds(NewJob(batchSize)) == {};
  }

  /** The migrated rows name only assets made since some moment. */
  ghost predicate OwnsSince(w: World, first: AssetId) {
    first <= w.shelf.next
    && forall id :: IsMigrated(w.ledger, id) && w.ledger.rows[id].asset.Some? ==> w.ledger.rows[id].asset.value >= first
  }

  /** An asset as it was, unless somebody deleted it; who holds it is anybody's business. */
  ghost predicate LeftAlone(before: World, after: World, a: AssetId) {
    a in before.shelf.assets
    ==> && a in after.shelf.assets && after.shelf.assets[a].metadata == before.shelf.assets[a].metadata
        && after.shelf.assets[a].deleted == before.shelf.assets[a].deleted
  }

  lemma {:induction false} CommandLeavesAlone(w: World, command: Command, first: AssetId, a: AssetId)
    requires Lawful(w) && OwnsSince(w, first) && a < first && command != DeleteAsset(a)
    ensures OwnsSince(Execute(w, command), first) && LeftAlone(w, Execute(w, command), a)
  {
    match command
    case DryRunStream(port, lines, idField) =>
      DryRunKeeps(port, w.ledger, lines, idField);
      SameMigrated(w.ledger, Execute(w, command).ledger);
    case TransferStream(source, request) =>
      if request.confirm && MayTransfer(w.ledger.phase) {
        TransferDelivers(source, w, request);
      }
    case _ =>
  }

  lemma {:induction false} HistoryLeavesAlone(w: World, commands: seq<Command>, first: AssetId, a: AssetId)
    requires Lawful(w) && OwnsSince(w, first) && a < first && DeleteAsset(a) !in commands
    ensures LeftAlone(w, History(w, commands), a)
    decreases |commands|
  {
    if commands != [] {
      CommandIsLawful(w, commands[0]);
      CommandLeavesAlone(w, commands[0], first, a);
      HistoryLeavesAlone(Execute(w, commands[0]), commands[1..], first, a);
    }
  }

  /** From a new job in any library: whatever is commanded, in whatever order and interrupted anywhere, an asset that
      was there before keeps its metadata and is not deleted unless somebody deletes that very asset; and a job with
      anything migrated is in its transfer, with a report stored and the counter exact. */
  lemma {:induction false} EveryHistoryOfANewJob(batchSize: int, shelf: Shelf, commands: seq<Command>, a: AssetId)
    requires forall other :: other in shelf.assets ==> other < shelf.next
    ensures var start := World(NewJob(batchSize), shelf);
            var after := History(start, commands);
            && Lawful(after)
            && (MigratedIds(after.ledger) != {}
                ==> && after.ledger.phase == Phase.Transfer && after.ledger.report.Some?
                    && after.ledger.migratedCount == |MigratedIds(after.ledger)|)
            && (DeleteAsset(a) !in commands ==> LeftAlone(start, after, a))
  {
    var start := World(NewJob(batchSize), shelf);
    NewJobIsLawful(batchSize, shelf);
    EveryHistoryIsLawful(start, commands);
    if DeleteAsset(a) !in commands && a in shelf.assets {
      HistoryLeavesAlone(start, commands, shelf.next, a);
    }
  }

  /** Whatever was migrated, it was some confirmed transfer that did it, run when the job's report was stored. */
  lemma {:induction false} NothingMovesUnreported(w: World, commands: seq<Command>) returns (k: nat)
    requires Lawful(w) && MigratedIds(w.ledger) == {} && MigratedIds(History(w, commands).ledger) != {}
    ensures k < |commands| && commands[k].TransferStream? && commands[k].request.confirm
    ensures var then' := History(w, commands[..k]);
            then'.ledger.report.Some? && MayTransfer(then'.ledger.phase)
    decreases |commands|
  {
    CommandIsLawful(w, commands[0]);
    var next := Execute(w, commands[0]);
    if MigratedIds(next.ledger) != {} {
      k := 0;
      assert commands[..0] == [];
    } else {
      var j := NothingMovesUnreported(next, commands[1..]);
      k := j + 1;
      assert commands[..k][0] == commands[0] && commands[..k][1..] == commands[1..][..j];
    }
  }
}
