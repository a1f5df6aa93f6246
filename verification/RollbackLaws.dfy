/** What a rollback takes back, what it leaves, and what it forgets. */
module RollbackLaws {
  import opened Crosswalk
  import opened Damctl
  import opened HistoryLaws
  import opened Imports
  import opened ImportLaws
  import opened Transfer
  import opened TransferLaws
  import opened Wrappers

  ghost function HeldBack(w: World): set<AssetId> {
    set a | a in Manifest(w) && a in w.shelf.assets && w.shelf.assets[a].held
  }

  /** A rollback deletes exactly the live, unheld assets its manifest names and touches no other; it keeps every
      record, none of them migrated. Doing it again takes nothing and changes nothing. */
  lemma {:induction false} RollbackTakesExactlyItsOwn(w: World, a: AssetId)
    requires a in w.shelf.assets
    ensures var after := RolledBackWorld(w);
            && a in after.shelf.assets
            && (after.shelf.assets[a].deleted
                <==> w.shelf.assets[a].deleted || (a in Manifest(w) && !w.shelf.assets[a].held))
            && after.shelf.assets[a].held == w.shelf.assets[a].held
               && after.shelf.assets[a].metadata == w.shelf.assets[a].metadata
            && after.shelf.assets.Keys == w.shelf.assets.Keys && after.ledger.rows.Keys == w.ledger.rows.Keys
            && MigratedIds(after.ledger) == {} && Manifest(after) == {} && Removable(after) == {}
            && RolledBackWorld(after) == after
  {
    var after := RolledBackWorld(w);
    assert forall id :: !IsMigrated(after.ledger, id);
    assert MarkedRolledBack(after.ledger).rows == after.ledger.rows;
    assert WithDeleted(after.shelf, {}).assets == after.shelf.assets;
  }

  /** A rollback undoes exactly the migrated rows: each comes to say it was rolled back and to name no asset, and keeps
      what else it said; every other row is as it was. */
  lemma {:induction false} RollbackUndoesRows(w: World, id: string)
    ensures var after := RolledBackWorld(w).ledger;
            && (id in after.rows <==> id in w.ledger.rows)
            && (IsMigrated(w.ledger, id)
                ==> after.rows[id] == Row(Undone, None, w.ledger.rows[id].warnings, w.ledger.rows[id].error))
            && (id in w.ledger.rows && !IsMigrated(w.ledger, id) ==> after.rows[id] == w.ledger.rows[id])
            && after.phase == (if w.ledger.phase == Complete || w.ledger.phase == RolledBack then w.ledger.phase
                               else RolledBack)
  {
  }

  lemma {:induction false} LiveRowsNameDistinctAssets(w: World)
    requires Sound(w)
    ensures |LiveRows(w)| == |Manifest(w)|
  {
    assert LiveRows(w) <= MigratedIds(w.ledger) by {
      assert forall id :: id in LiveRows(w) ==> IsMigrated(w.ledger, id);
    }
    NamesAreCounted(w, LiveRows(w), Manifest(w));
  }

  lemma {:induction false} NamesAreCounted(w: World, ids: set<string>, assets: set<AssetId>)
    requires Sound(w) && ids <= MigratedIds(w.ledger)
    requires forall a :: a in assets <==> exists id :: id in ids && w.ledger.rows[id].asset == Some(a)
    ensures |ids| == |assets|
    decreases |ids|
  {
    if ids == {} {
      assert assets == {};
    } else {
      var id :| id in ids;
      var a := w.ledger.rows[id].asset.value;
      assert IsMigrated(w.ledger, id);
      var fewer := ids - {id};
      forall b
        ensures b in assets - {a} <==> exists other :: other in fewer && w.ledger.rows[other].asset == Some(b)
      {
        if other :| other in fewer && w.ledger.rows[other].asset == Some(b) {
          assert IsMigrated(w.ledger, other) && other in ids;
        }
      }
      NamesAreCounted(w, fewer, assets - {a});
    }
  }

  /** What a rollback reports as left in place is exactly what a hold kept: removed and held make up the manifest,
      entry by entry, because no two rows of a sound job name one asset. */
  lemma {:induction false} LeftInPlaceIsHeld(w: World)
    requires Sound(w)
    ensures |Removable(w)| + |HeldBack(w)| == |LiveRows(w)|
  {
    LiveRowsNameDistinctAssets(w);
    assert Manifest(w) == Removable(w) + HeldBack(w);
    assert Removable(w) !! HeldBack(w);
  }

  /** A hold outranks a rollback for good: an asset it kept is forgotten by the job. Of the assets a rollback listed,
      whatever is commanded afterwards, holds lifted and rollbacks repeated included, exactly those that were held
      when it ran stay, unless somebody deletes that very asset. */
  lemma {:induction false} HeldAssetIsStranded(w: World, a: AssetId, commands: seq<Command>)
    requires Lawful(w)
    requires a in Manifest(w) && a in w.shelf.assets && DeleteAsset(a) !in commands
    ensures var again := History(RolledBackWorld(w), commands);
            a in again.shelf.assets && (again.shelf.assets[a].deleted <==> !w.shelf.assets[a].held)
  {
    var once := RolledBackWorld(w);
    RollbackTakesExactlyItsOwn(w, a);
    CommandIsLawful(w, RollBack(true));
    assert Execute(w, RollBack(true)) == once;
    assert forall id :: IsMigrated(once.ledger, id) <==> id in MigratedIds(once.ledger);
    assert !w.shelf.assets[a].deleted;
    HistoryLeavesAlone(once, commands, once.shelf.next, a);
  }

  /** The counters are kept apart from the rows and may drift. A rollback undoes rows and not the count, so after one
      the migrated counter agrees with the rows exactly when there was nothing to undo. */
  lemma {:induction false} CountAfterRollbackIff(w: World)
    requires Lawful(w) && w.ledger.phase != RolledBack
    ensures var after := RolledBackWorld(w).ledger;
            after.migratedCount == |MigratedIds(after)| <==> MigratedIds(w.ledger) == {}
  {
    assert MigratedIds(RolledBackWorld(w).ledger) == {};
  }

  /** The phase machine is asked only after the assets are gone and the rows marked. A refused rollback has changed
      nothing exactly when the job had nothing migrated. A job that its commands brought to an end never has, so for
      those the order does no harm. */
  lemma {:induction false} RefusedRollbackChangesNothingIff(w: World)
    requires Advanced(w.ledger, RolledBack).Err?
    ensures RolledBackWorld(w) == w <==> MigratedIds(w.ledger) == {}
    ensures Lawful(w) ==> RolledBackWorld(w) == w
  {
    var after := RolledBackWorld(w);
    assert MigratedIds(after.ledger) == {};
    if MigratedIds(w.ledger) == {} {
      forall id | id in w.ledger.rows
        ensures w.ledger.rows[id].state != Migrated && after.ledger.rows[id] == w.ledger.rows[id]
      {
        assert id !in MigratedIds(w.ledger);
      }
      assert after.ledger.rows == w.ledger.rows;
      assert Manifest(w) == {} && after.shelf.assets == w.shelf.assets;
    }
  }

  /** A rolled-back record is kept so that a second attempt can know what the first one did. A dry run is not
      refused to a rolled-back job, and rewrites such records: one keeps saying it was rolled back exactly when the
      stream does not bring its id. */
  lemma {:induction false} UndoneIsRememberedIff(port: Port, w: World, lines: seq<string>, idField: string, id: string)
    requires Lawful(w) && w.ledger.phase == RolledBack
    requires id in w.ledger.rows && w.ledger.rows[id].state == Undone
    ensures var after := DryRunResult(port, w.ledger, lines, idField).0;
            && after.phase == RolledBack && id in after.rows
            && (after.rows[id].state == Undone <==> !Mentioned(Entries(port.read, idField, lines, 0), id))
  {
    var judge := Judge(port, IgnoringId(w.ledger.crosswalk, idField));
    DryRunReadsEntries(port, w.ledger, lines, idField);
    DryRunKeeps(port, w.ledger, lines, idField);
    NotesKeep(judge, w.ledger, Entries(port.read, idField, lines, 0));
  }

  // ---------- does a rollback remove every asset the run created? ----------

  /** The assets made since some moment. */
  ghost function MadeSince(w: World, first: AssetId): set<AssetId> {
    set a | a in w.shelf.assets && first <= a
  }

  /** The assets the migrated rows name. */
  ghost function NamedAssets(w: World): set<AssetId> {
    set id | id in w.ledger.rows && IsMigrated(w.ledger, id)
        && w.ledger.rows[id].asset.Some? :: w.ledger.rows[id].asset.value
  }

  /** How many transfers of a history died after an ingest and before the row. */
  ghost function Strayed(w: World, commands: seq<Command>): nat
    decreases |commands|
  {
    if commands == [] then 0 else StrayedIn(w, commands[0]) + Strayed(Execute(w, commands[0]), commands[1..])
  }

  ghost function StrayedIn(w: World, command: Command): nat {
    if command.TransferStream? && command.request.confirm && MayTransfer(w.ledger.phase)
    then One01(Died(TransferRun(command.source, w, command.request), command.request.forecast, DiesBeforeRecording))
    else 0
  }

  /** What a job has done to the library so far: it names only what it made, everything it made is still there, and it
      made one asset per migrated row and one per stray. */
  ghost predicate Accountable(w: World, first: AssetId, strays: nat) {
    && OwnsSince(w, first)
    && (forall a :: first <= a < w.shelf.next ==> a in w.shelf.assets)
    && w.shelf.next == first + |MigratedIds(w.ledger)| + strays
  }

  lemma {:induction false} CommandIsAccountable(w: World, command: Command, first: AssetId, strays: nat)
    requires Lawful(w) && Accountable(w, first, strays) && Execute(w, command).ledger.phase != RolledBack
    ensures Accountable(Execute(w, command), first, strays + StrayedIn(w, command))
  {
    var after := Execute(w, command);
    match command
    case LoadFile(_) => assert MigratedIds(after.ledger) == MigratedIds(w.ledger);
    case DryRunStream(port, lines, idField) =>
      DryRunKeeps(port, w.ledger, lines, idField);
      SameMigrated(w.ledger, after.ledger);
    case TransferStream(source, request) =>
      if request.confirm && MayTransfer(w.ledger.phase) {
        TransferIsAccountable(source, w, request, first, strays);
      }
    case _ =>
  }

  lemma {:induction false} TransferIsAccountable(port: Port, w: World, request: TransferRequest, first: AssetId,
                                                 strays: nat)
    requires request.confirm && MayTransfer(w.ledger.phase) && Sound(w) && Accountable(w, first, strays)
    ensures Accountable(TransferResult(port, w, request).0, first,
                        strays + StrayedIn(w, TransferStream(port, request)))
  {
    var run := TransferRun(port, w, request);
    TransferDelivers(port, w, request);
    TransferAccounted(port, w, request);
    assert MigratedIds(Recounted(run.world.ledger)) == MigratedIds(run.world.ledger);
  }

  lemma {:induction false} HistoryIsAccountable(w: World, commands: seq<Command>, first: AssetId, strays: nat)
    requires Lawful(w) && Accountable(w, first, strays) && History(w, commands).ledger.phase != RolledBack
    ensures Accountable(History(w, commands), first, strays + Strayed(w, commands))
    decreases |commands|
  {
    if commands != [] {
      var next := Execute(w, commands[0]);
      CommandIsLawful(w, commands[0]);
      EveryHistoryIsLawful(next, commands[1..]);
      CommandIsAccountable(w, commands[0], first, strays);
      HistoryIsAccountable(next, commands[1..], first, strays + StrayedIn(w, commands[0]));
    }
  }

  lemma {:induction false} SizeOfInterval(assets: set<AssetId>, first: AssetId, next: AssetId)
    requires first <= next && forall a :: a in assets <==> first <= a < next
    ensures |assets| == next - first
    decreases next
  {
    if first == next {
      assert assets == {};
    } else {
      SizeOfInterval(assets - {next - 1}, first, next - 1);
    }
  }

  lemma {:induction false} StraysAreCounted(w: World, first: AssetId, strays: nat)
    requires Sound(w) && Accountable(w, first, strays)
    ensures NamedAssets(w) <= MadeSince(w, first) && |MadeSince(w, first) - NamedAssets(w)| == strays
  {
    SizeOfInterval(MadeSince(w, first), first, w.shelf.next);
    forall id | id in MigratedIds(w.ledger)
      ensures IsMigrated(w.ledger, id)
    {
    }
    forall a
      ensures a in NamedAssets(w) <==> exists id :: id in MigratedIds(w.ledger) && w.ledger.rows[id].asset == Some(a)
    {
      if id :| id in MigratedIds(w.ledger) && w.ledger.rows[id].asset == Some(a) {
        assert IsMigrated(w.ledger, id) && id in w.ledger.rows;
      }
      if a in NamedAssets(w) {
        var id :| id in w.ledger.rows && IsMigrated(w.ledger, id) && w.ledger.rows[id].asset == Some(a);
        assert id in MigratedIds(w.ledger);
      }
    }
    NamesAreCounted(w, MigratedIds(w.ledger), NamedAssets(w));
  }

  lemma {:induction false} NewJobIsAccountable(batchSize: int, shelf: Shelf)
    ensures Accountable(World(NewJob(batchSize), shelf), shelf.next, 0)
  {
    assert MigratedIds(NewJob(batchSize)) == {};
  }

  lemma {:induction false} ManifestIsNamedAndLive(w: World, a: AssetId)
    requires a in w.shelf.assets
    ensures a in Manifest(w) <==> a in NamedAssets(w) && !w.shelf.assets[a].deleted
  {
    if a in NamedAssets(w) && !w.shelf.assets[a].deleted {
      var id :| id in w.ledger.rows && IsMigrated(w.ledger, id) && w.ledger.rows[id].asset == Some(a);
      assert NamesLive(w, id, a);
    }
  }

  /** A rollback is said to remove every asset the run created. After any history of a new job, however its transfers
      were interrupted and resumed, a confirmed rollback leaves live, of the assets made since the job began, exactly
      those that were held and those no row names; and the latter, deleted or not, number one for each run that died
      between an ingest and its row. */
  lemma {:induction false} RollbackLeavesHeldAndStrays(batchSize: int, shelf: Shelf, commands: seq<Command>, a: AssetId)
    requires forall other :: other in shelf.assets ==> other < shelf.next
    requires History(World(NewJob(batchSize), shelf), commands).ledger.phase != RolledBack
    ensures var start := World(NewJob(batchSize), shelf);
            var w := History(start, commands);
            var after, made, named := RolledBackWorld(w), MadeSince(w, shelf.next), NamedAssets(w);
            && named <= made && |made - named| == Strayed(start, commands)
            && (a in made ==> && a in after.shelf.assets
                              && (!after.shelf.assets[a].deleted
                                  <==> !w.shelf.assets[a].deleted && (w.shelf.assets[a].held || a !in named)))
  {
    var start := World(NewJob(batchSize), shelf);
    var w := History(start, commands);
    NewJobIsLawful(batchSize, shelf);
    NewJobIsAccountable(batchSize, shelf);
    EveryHistoryIsLawful(start, commands);
    HistoryIsAccountable(start, commands, shelf.next, 0);
    StraysAreCounted(w, shelf.next, Strayed(start, commands));
    if a in MadeSince(w, shelf.next) {
      RollbackTakesExactlyItsOwn(w, a);
      ManifestIsNamedAndLive(w, a);
    }
  }

  ghost predicate AllLiveSince(w: World, first: AssetId) {
    forall a :: first <= a < w.shelf.next ==> a in w.shelf.assets && !w.shelf.assets[a].deleted
  }

  lemma {:induction false} HistoryKeepsLive(w: World, commands: seq<Command>, first: AssetId)
    requires Lawful(w) && AllLiveSince(w, first) && first <= w.shelf.next
    requires History(w, commands).ledger.phase != RolledBack
    requires forall command :: command in commands ==> !command.DeleteAsset?
    ensures AllLiveSince(History(w, commands), first)
    decreases |commands|
  {
    if commands != [] {
      var next := Execute(w, commands[0]);
      CommandIsLawful(w, commands[0]);
      EveryHistoryIsLawful(next, commands[1..]);
      CommandKeepsLive(w, commands[0], first);
      HistoryKeepsLive(next, commands[1..], first);
    }
  }

  lemma {:induction false} CommandKeepsLive(w: World, command: Command, first: AssetId)
    requires Lawful(w) && AllLiveSince(w, first) && first <= w.shelf.next
    requires !command.DeleteAsset? && Execute(w, command).ledger.phase != RolledBack
    ensures AllLiveSince(Execute(w, command), first) && first <= Execute(w, command).shelf.next
  {
    match command
    case TransferStream(source, request) =>
      if request.confirm && MayTransfer(w.ledger.phase) {
        TransferDelivers(source, w, request);
      }
    case _ =>
  }

  /** So where nobody deleted anything meanwhile, a rollback removes every asset the run created exactly when no run
      died between an ingest and its row and no asset of the job is held. */
  lemma {:induction false} RollbackIsCompleteIff(batchSize: int, shelf: Shelf, commands: seq<Command>)
    requires forall other :: other in shelf.assets ==> other < shelf.next
    requires forall command :: command in commands ==> !command.DeleteAsset?
    requires History(World(NewJob(batchSize), shelf), commands).ledger.phase != RolledBack
    ensures var start := World(NewJob(batchSize), shelf);
            var w := History(start, commands);
            var after := RolledBackWorld(w).shelf.assets;
            (forall a :: a in MadeSince(w, shelf.next) ==> a in after && after[a].deleted)
            <==> Strayed(start, commands) == 0 && HeldBack(w) == {}
  {
    var start := World(NewJob(batchSize), shelf);
    var w := History(start, commands);
    var after, made, named := RolledBackWorld(w).shelf.assets, MadeSince(w, shelf.next), NamedAssets(w);
    NewJobIsLawful(batchSize, shelf);
    HistoryKeepsLive(start, commands, shelf.next);
    EveryHistoryIsLawful(start, commands);
    RollbackLeavesHeldAndStrays(batchSize, shelf, commands, 0);
    forall a | a in made
      ensures a in after && (after[a].deleted <==> !w.shelf.assets[a].held && a in named)
      ensures a in HeldBack(w) <==> a in named && w.shelf.assets[a].held
    {
      RollbackLeavesHeldAndStrays(batchSize, shelf, commands, a);
      ManifestIsNamedAndLive(w, a);
    }
    assert HeldBack(w) <= made by {
      forall a | a in HeldBack(w)
        ensures a in made
      {
        ManifestIsNamedAndLive(w, a);
      }
    }
    if Strayed(start, commands) == 0 {
      assert made - named == {};
    } else {
      var a :| a in made - named;
    }
  }
}
