/** The import commands of `damctl`: load a crosswalk, dry-run, transfer, roll back (bins/damctl/src/main.rs). */
module Damctl {
  import opened Crosswalk
  import opened Imports
  import opened Json
  import opened Report
  import opened Text
  import opened Transfer
  import opened Wrappers

  /** Reads a line into a record. */
  type Reader = string -> Option<Record>

  /** Everything a command consults besides the tables: the JSON reader, the codec of the mapping, the field
      definitions, the validator (which answers with its rejections, if any), and the ingest path. */
  datatype Port = Port(
    read: Reader, codec: Codec, defs: seq<FieldDef>,
    validate: Payload -> Option<seq<string>>, ingest: Record -> Verdict)

  /** A record's id at the source: its id field when that holds a string, its position otherwise. */
  function IdOf(record: Record, idField: string, position: nat): string {
    AsStr(FieldValue(record, idField)).GetOr(Decimal(position))
  }

  /** A record of the stream, identified. */
  datatype Entry = Entry(id: string, record: Record)

  function NoteOf(mapped: Mapped): Option<Trouble> {
    match mapped.fatal
    case Some(warning) => Some(NotMapped(warning.loss))
    case None => None
  }

  // ---------- crosswalk ----------

  /** A file that does not parse changes nothing. Loading moves the job on only from discovery. */
  ghost function CrosswalkLoaded(ledger: Ledger, file: Option<Crosswalk>): (Ledger, bool) {
    match file
    case None => (ledger, false)
    case Some(mapping) =>
      match WithCrosswalk(ledger, mapping)
      case Err(_) => (ledger, false)
      case Ok(stored) => (if stored.phase == Discover then stored.(phase := CrosswalkReview) else stored, true)
  }

  method LoadCrosswalk(job: Job, file: Option<Crosswalk>) returns (ok: bool)
    modifies job
    ensures (job.View(), ok) == CrosswalkLoaded(old(job.View()), file)
  {
    if file.None? {
      return false;
    }
    var stored := job.SetCrosswalk(file.value);
    if stored.Err? {
      return false;
    }
    if job.phase == Discover {
      var advanced := job.Advance(CrosswalkReview);
      assert advanced.Ok?;
    }
    ok := true;
  }

  // ---------- dry run ----------

  datatype Dry = Dry(ledger: Ledger, report: Report, discovered: nat, readable: bool)

  /** Maps a record and asks the validator about the result. */
  type Judging = Record -> Judged

  ghost function Judge(port: Port, crosswalk: Crosswalk): Judging {
    (record: Record) =>
      var mapped := Apply(port.codec, crosswalk, record, port.defs);
      Judged(record, mapped, port.validate(mapped.payload))
  }

  ghost function DryLoop(read: Reader, crosswalk: Crosswalk, judge: Judging, idField: string, lines: seq<string>,
                         dry: Dry): Dry
    decreases |lines|
  {
    if lines == [] then dry
    else if IsBlank(lines[0]) then DryLoop(read, crosswalk, judge, idField, lines[1..], dry)
    else match read(lines[0])
      case None => dry.(readable := false)
      case Some(record) =>
        var discovered := dry.discovered + 1;
        var judged := judge(record);
        DryLoop(read, crosswalk, judge, idField, lines[1..],
                dry.(ledger := Noted(dry.ledger, IdOf(record, idField, discovered), judged.mapped.warnings,
                                     NoteOf(judged.mapped)),
                     report := Fold(dry.report, crosswalk, judged),
                     discovered := discovered))
  }

  ghost function DryRunResult(port: Port, ledger: Ledger, lines: seq<string>, idField: string): (Ledger, bool) {
    var crosswalk := IgnoringId(ledger.crosswalk, idField);
    var dry := DryLoop(port.read, crosswalk, Judge(port, crosswalk), idField, lines, Dry(ledger, EMPTY, 0, true));
    if !dry.readable then (dry.ledger, false)
    else
      var reported := WithReport(dry.ledger, dry.discovered, dry.report);
      (if ledger.phase == CrosswalkReview then reported.(phase := DryRun) else reported, true)
  }

  /** One record of a dry run: mapped, validated, folded into the report and noted. */
  method DryRecord(port: Port, crosswalk: Crosswalk, id: string, record: Record, report: Report, job: Job)
    returns (after: Report)
    modifies job
    ensures after == Fold(report, crosswalk, Judge(port, crosswalk)(record))
    ensures var mapped := Judge(port, crosswalk)(record).mapped;
            job.View() == Noted(old(job.View()), id, mapped.warnings, NoteOf(mapped))
  {
    var mapped := MapRecord(port.codec, crosswalk, record, port.defs);
    var judged := Judged(record, mapped, port.validate(mapped.payload));
    after := report;
    if judged.rejected.Some? {
      after := AccrueRejections(after, judged.rejected.value);
    }
    after := Accrue(after, crosswalk, judged);
    job.Note(id, mapped.warnings, NoteOf(mapped));
  }

  /** The loop over the stream. */
  method DryAll(port: Port, crosswalk: Crosswalk, idField: string, lines: seq<string>, job: Job)
    returns (report: Report, discovered: nat, readable: bool)
    modifies job
    ensures Dry(job.View(), report, discovered, readable)
         == DryLoop(port.read, crosswalk, Judge(port, crosswalk), idField, lines, Dry(old(job.View()), EMPTY, 0, true))
  {
    report, discovered := EMPTY, 0;
    ghost var judge := Judge(port, crosswalk);
    ghost var goal := DryLoop(port.read, crosswalk, judge, idField, lines, Dry(job.View(), EMPTY, 0, true));
    assert lines[0..] == lines;
    for i := 0 to |lines|
      invariant goal == DryLoop(port.read, crosswalk, judge, idField, lines[i..],
                                Dry(job.View(), report, discovered, true))
    {
      assert lines[i..][0] == lines[i] && lines[i..][1..] == lines[i + 1..];
      if IsBlank(lines[i]) {
        continue;
      }
      var read := port.read(lines[i]);
      if read.None? {
        return report, discovered, false;
      }
      ghost var judged := judge(read.value);
      discovered := discovered + 1;
      var id := IdOf(read.value, idField, discovered);
      ghost var next := Dry(Noted(job.View(), id, judged.mapped.warnings, NoteOf(judged.mapped)),
                            Fold(report, crosswalk, judged), discovered, true);
      assert goal == DryLoop(port.read, crosswalk, judge, idField, lines[i + 1..], next);
      report := DryRecord(port, crosswalk, id, read.value, report, job);
      assert next == Dry(job.View(), report, discovered, true);
    }
    readable := true;
  }

  method RunDry(port: Port, job: Job, lines: seq<string>, idField: string) returns (ok: bool)
    modifies job
    ensures (job.View(), ok) == DryRunResult(port, old(job.View()), lines, idField)
  {
    var phase := job.phase;
    var crosswalk := IgnoringId(job.crosswalk, idField);
    ghost var before := job.View();
    var report, discovered, readable := DryAll(port, crosswalk, idField, lines, job);
    if !readable {
      return false;
    }
    LoopKeepsPhase(port.read, crosswalk, Judge(port, crosswalk), idField, lines, Dry(before, EMPTY, 0, true));
    job.SetReport(discovered, report);
    if phase == CrosswalkReview {
      var advanced := job.Advance(DryRun);
      assert advanced.Ok?;
    }
    ok := true;
  }

  lemma {:induction false} LoopKeepsPhase(read: Reader, crosswalk: Crosswalk, judge: Judging, idField: string,
      lines: seq<string>, dry: Dry)
    ensures DryLoop(read, crosswalk, judge, idField, lines, dry).ledger.phase == dry.ledger.phase
    decreases |lines|
  {
    if lines != [] {
      if IsBlank(lines[0]) {
        LoopKeepsPhase(read, crosswalk, judge, idField, lines[1..], dry);
      } else if read(lines[0]).Some? {
        var record := read(lines[0]).value;
        var judged := judge(record);
        var id := IdOf(record, idField, dry.discovered + 1);
        LoopKeepsPhase(read, crosswalk, judge, idField, lines[1..],
                       dry.(ledger := Noted(dry.ledger, id, judged.mapped.warnings, NoteOf(judged.mapped)),
                            report := Fold(dry.report, crosswalk, judged), discovered := dry.discovered + 1));
      }
    }
  }

  // ---------- transfer ----------

  datatype Tally = Tally(migrated: nat, skipped: nat, failed: nat, seen: nat)

  /** How the loop ended: it ran out of lines or reached its ceiling; it was interrupted; a line would not parse. */
  datatype End = Finished | Stopped | Unreadable

  datatype Run = Run(world: World, tally: Tally, end: End)

  /** What the weather is at each record a run reads, by its position. */
  type Forecast = nat -> Weather

  function Tallied(tally: Tally, outcome: Outcome): Tally {
    match outcome
    case Moved(_) => tally.(migrated := tally.migrated + 1)
    case Skipped => tally.(skipped := tally.skipped + 1)
    case NotMoved(_) => tally.(failed := tally.failed + 1)
  }

  /** Moves the record read at a position, and says how that went. */
  type Step = (World, Entry, nat) -> (World, Attempt)

  ghost function TransferLoop(read: Reader, idField: string, ceiling: int, step: Step,
                              lines: seq<string>, w: World, tally: Tally): Run
    decreases |lines|
  {
    if lines == [] then Run(w, tally, Finished)
    else if IsBlank(lines[0]) then TransferLoop(read, idField, ceiling, step, lines[1..], w, tally)
    else if tally.migrated >= ceiling then Run(w, tally, Finished)
    else match read(lines[0])
      case None => Run(w, tally, Unreadable)
      case Some(record) =>
        var seen := tally.(seen := tally.seen + 1);
        var (after, attempt) := step(w, Entry(IdOf(record, idField, seen.seen), record), seen.seen);
        match attempt
        case Interrupted => Run(after, seen, Stopped)
        case Done(outcome) => TransferLoop(read, idField, ceiling, step, lines[1..], after, Tallied(seen, outcome))
  }

  /** One record with its id: mapped as the dry run maps it, then moved. */
  ghost function MoveEntry(port: Port, crosswalk: Crosswalk, entry: Entry, w: World, weather: Weather)
    : (World, Attempt)
  {
    One(w, entry.id, Apply(port.codec, crosswalk, entry.record, port.defs).payload, port.ingest(entry.record), weather)
  }

  ghost function Stepping(port: Port, crosswalk: Crosswalk, forecast: Forecast): Step {
    (w: World, entry: Entry, position: nat) => MoveEntry(port, crosswalk, entry, w, forecast(position))
  }

  method MoveRecord(port: Port, crosswalk: Crosswalk, entry: Entry, weather: Weather, job: Job, library: Library)
    returns (attempt: Attempt)
    modifies job, library
    ensures (World(job.View(), library.View()), attempt)
         == MoveEntry(port, crosswalk, entry, old(World(job.View(), library.View())), weather)
  {
    var mapped := MapRecord(port.codec, crosswalk, entry.record, port.defs);
    attempt := TransferOne(job, library, entry.id, mapped.payload, port.ingest(entry.record), weather);
  }

  /** The loop, driven by the lines that are left. */
  method MoveAll(port: Port, crosswalk: Crosswalk, idField: string, ceiling: int, forecast: Forecast,
                 lines: seq<string>, job: Job, library: Library) returns (tally: Tally, end: End)
    modifies job, library
    ensures Run(World(job.View(), library.View()), tally, end)
         == TransferLoop(port.read, idField, ceiling, Stepping(port, crosswalk, forecast), lines,
                         old(World(job.View(), library.View())), Tally(0, 0, 0, 0))
  {
    tally := Tally(0, 0, 0, 0);
    ghost var step := Stepping(port, crosswalk, forecast);
    ghost var goal := TransferLoop(port.read, idField, ceiling, step, lines, World(job.View(), library.View()), tally);
    assert lines[0..] == lines;
    for i := 0 to |lines|
      invariant goal == TransferLoop(port.read, idField, ceiling, step, lines[i..], World(job.View(), library.View()),
                                     tally)
    {
      var line := lines[i];
      assert lines[i..][0] == line && lines[i..][1..] == lines[i + 1..];
      if IsBlank(line) {
        continue;
      }
      if tally.migrated >= ceiling {
        return tally, Finished;
      }
      var read := port.read(line);
      if read.None? {
        return tally, Unreadable;
      }
      tally := tally.(seen := tally.seen + 1);
      var entry := Entry(IdOf(read.value, idField, tally.seen), read.value);
      ghost var before := World(job.View(), library.View());
      var attempt := MoveRecord(port, crosswalk, entry, forecast(tally.seen), job, library);
      assert (World(job.View(), library.View()), attempt) == step(before, entry, tally.seen);
      if attempt.Interrupted? {
        return tally, Stopped;
      }
      tally := Tallied(tally, attempt.outcome);
    }
    end := Finished;
  }

  datatype TransferRequest = TransferRequest(lines: seq<string>, idField: string, limit: Option<int>, confirm: bool,
                                             forecast: Forecast)

  predicate MayTransfer(phase: Phase) {
    phase == DryRun || phase == Transfer
  }

  function Ceiling(request: TransferRequest, batchSize: int): int {
    request.limit.GetOr(if batchSize < 1 then 1 else batchSize)
  }

  /** The run a transfer command makes, once it is allowed to. */
  ghost function TransferRun(port: Port, w: World, request: TransferRequest): Run {
    TransferLoop(port.read, request.idField, Ceiling(request, w.ledger.batchSize),
                 Stepping(port, IgnoringId(w.ledger.crosswalk, request.idField), request.forecast),
                 request.lines, w.(ledger := w.ledger.(phase := Transfer)), Tally(0, 0, 0, 0))
  }

  ghost function TransferResult(port: Port, w: World, request: TransferRequest): (World, Option<Tally>) {
    if !request.confirm || !MayTransfer(w.ledger.phase) then (w, None)
    else
      var run := TransferRun(port, w, request);
      if run.end.Finished? then (run.world.(ledger := Recounted(run.world.ledger)), Some(run.tally))
      else (run.world, None)
  }

  method RunTransfer(port: Port, job: Job, library: Library, request: TransferRequest) returns (tally: Option<Tally>)
    modifies job, library
    ensures (World(job.View(), library.View()), tally)
         == TransferResult(port, old(World(job.View(), library.View())), request)
  {
    if !request.confirm || !MayTransfer(job.phase) {
      return None;
    }
    var crosswalk := IgnoringId(job.crosswalk, request.idField);
    if job.phase == DryRun {
      var advanced := job.Advance(Transfer);
      assert advanced.Ok?;
    }
    var moved, end := MoveAll(port, crosswalk, request.idField, Ceiling(request, job.batchSize), request.forecast,
                              request.lines, job, library);
    if end != Finished {
      return None;
    }
    job.Recount();
    tally := Some(moved);
  }

  // ---------- rollback ----------

  /** The live assets the job's migrated rows name. */
  ghost function Manifest(w: World): set<AssetId> {
    set id | IsMigrated(w.ledger, id) && id in w.ledger.rows && w.ledger.rows[id].asset.Some?
             && w.ledger.rows[id].asset.value in w.shelf.assets
             && !w.shelf.assets[w.ledger.rows[id].asset.value].deleted
           :: w.ledger.rows[id].asset.value
  }

  ghost function Removable(w: World): set<AssetId> {
    set asset | asset in Manifest(w) && asset in w.shelf.assets && !w.shelf.assets[asset].held
  }

  ghost function WithDeleted(shelf: Shelf, gone: set<AssetId>): Shelf {
    shelf.(assets := map asset | asset in shelf.assets ::
                       if asset in gone then shelf.assets[asset].(deleted := true) else shelf.assets[asset])
  }

  /** The tables after a rollback that was confirmed, whether or not the phase may still change. */
  ghost function RolledBackWorld(w: World): World {
    var undone := MarkedRolledBack(w.ledger);
    World(if w.ledger.phase.IsTerminal() then undone else undone.(phase := RolledBack),
          WithDeleted(w.shelf, Removable(w)))
  }

  /** The migrated rows whose asset is still live: the manifest, entry by entry. */
  ghost function LiveRows(w: World): set<string> {
    set id | id in w.ledger.rows && IsLiveRow(w, id)
  }

  ghost predicate IsLiveRow(w: World, id: string)
    requires id in w.ledger.rows
  {
    w.ledger.rows[id].asset.Some? && NamesLive(w, id, w.ledger.rows[id].asset.value)
  }

  method CreatedAssets(job: Job, library: Library) returns (manifest: seq<AssetId>)
    ensures forall asset :: asset in manifest <==> asset in Manifest(World(job.View(), library.View()))
    ensures |manifest| == |LiveRows(World(job.View(), library.View()))|
  {
    manifest := [];
    var pending := job.rows.Keys;
    ghost var w := World(job.View(), library.View());
    ghost var found: set<string> := {};
    while pending != {}
      invariant pending <= job.rows.Keys
      invariant found == (set id | id in job.rows && id !in pending && IsLiveRow(w, id)) && |manifest| == |found|
      invariant forall asset :: asset in manifest
                                <==> exists id :: id in job.rows && id !in pending && NamesLive(w, id, asset)
      decreases |pending|
    {
      var id :| id in pending;
      ghost var before, was := manifest, pending;
      var row := job.rows[id];
      if row.state == Migrated && row.asset.Some? && row.asset.value in library.assets
          && !library.assets[row.asset.value].deleted {
        manifest := manifest + [row.asset.value];
        assert NamesLive(w, id, row.asset.value);
        found := found + {id};
      }
      pending := pending - {id};
      forall asset
        ensures asset in manifest
                <==> exists other :: other in job.rows && other !in pending && NamesLive(w, other, asset)
      {
        if asset in before {
          var other :| other in job.rows && other !in was && NamesLive(w, other, asset);
          assert other !in pending;
        }
      }
    }
    assert found == LiveRows(w);
  }

  ghost predicate NamesLive(w: World, id: string, asset: AssetId) {
    && IsMigrated(w.ledger, id) && id in w.ledger.rows && w.ledger.rows[id].asset == Some(asset)
    && asset in w.shelf.assets && !w.shelf.assets[asset].deleted
  }

  ghost function Unheld(shelf: Shelf, manifest: seq<AssetId>): set<AssetId> {
    set asset | asset in manifest && asset in shelf.assets && !shelf.assets[asset].held
  }

  lemma {:induction false} DeletedOneMore(before: Shelf, gone: set<AssetId>, asset: AssetId)
    requires asset in before.assets && !before.assets[asset].deleted
    ensures var now := WithDeleted(before, gone).assets;
            && asset in now && (now[asset].deleted <==> asset in gone) && now[asset].held == before.assets[asset].held
            && WithDeleted(before, gone).(assets := now[asset := now[asset].(deleted := true)])
               == WithDeleted(before, gone + {asset})
  {
  }

  lemma {:induction false} UnheldOneMore(before: Shelf, done: seq<AssetId>, asset: AssetId)
    requires asset in before.assets
    ensures Unheld(before, done + [asset])
            == if before.assets[asset].held then Unheld(before, done) else Unheld(before, done) + {asset}
  {
  }

  /** The guarded updates of a rollback, one per manifest entry. */
  method RemoveAll(library: Library, manifest: seq<AssetId>) returns (removed: nat)
    requires forall asset :: asset in manifest ==> asset in library.assets && !library.assets[asset].deleted
    modifies library
    ensures library.View() == WithDeleted(old(library.View()), Unheld(old(library.View()), manifest))
    ensures removed == |Unheld(old(library.View()), manifest)| && removed <= |manifest|
  {
    removed := 0;
    ghost var before := library.View();
    for i := 0 to |manifest|
      invariant library.View() == WithDeleted(before, Unheld(before, manifest[..i]))
      invariant removed == |Unheld(before, manifest[..i])| && removed <= i
    {
      var asset := manifest[i];
      assert manifest[..i + 1] == manifest[..i] + [asset];
      ghost var gone := Unheld(before, manifest[..i]);
      DeletedOneMore(before, gone, asset);
      UnheldOneMore(before, manifest[..i], asset);
      var taken := library.SoftDelete(asset);
      assert taken == 1 <==> !before.assets[asset].held && asset !in gone;
      assert taken == 0 ==> Unheld(before, manifest[..i + 1]) == gone;
      removed := removed + taken;
    }
    assert manifest[..|manifest|] == manifest;
  }

  /** Removes what the job created and nothing holds, marks every migrated row, and then asks the phase machine,
      which refuses a job already at an end. */
  method Rollback(job: Job, library: Library, confirm: bool) returns (ok: bool, removed: nat, listed: nat, marked: nat)
    modifies job, library
    ensures !confirm ==> !ok && job.View() == old(job.View()) && library.View() == old(library.View())
    ensures confirm ==> World(job.View(), library.View()) == RolledBackWorld(old(World(job.View(), library.View())))
    ensures confirm ==> (ok <==> !old(job.phase).IsTerminal())
    ensures confirm ==> removed == |Removable(old(World(job.View(), library.View())))|
    ensures confirm ==> listed == |LiveRows(old(World(job.View(), library.View())))| && removed <= listed
    ensures confirm ==> marked == |MigratedIds(old(job.View()))|
  {
    ok, removed, listed, marked := false, 0, 0, 0;
    if !confirm {
      return;
    }
    ghost var w := World(job.View(), library.View());
    var manifest := CreatedAssets(job, library);
    listed := |manifest|;
    removed := RemoveAll(library, manifest);
    assert Removable(w) == Unheld(w.shelf, manifest);
    marked := job.MarkRolledBack();
    var advanced := job.Advance(RolledBack);
    ok := advanced.Ok?;
  }
}
