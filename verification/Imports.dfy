/** The migration's tables: one job row, its phase machine, and one record row per source asset
    (crates/dam-db/src/imports.rs). */
module Imports {
  import opened Crosswalk
  import opened Report
  import opened Wrappers

  // ---------- the phase machine ----------

  datatype Phase = Discover | CrosswalkReview | DryRun | Transfer | Verify | Complete | RolledBack | Failed {
    predicate IsTerminal() {
      this == Complete || this == RolledBack
    }

    function Next(): Option<Phase> {
      match this
      case Discover => Some(CrosswalkReview)
      case CrosswalkReview => Some(DryRun)
      case DryRun => Some(Transfer)
      case Transfer => Some(Verify)
      case Verify => Some(Complete)
      case Complete => None
      case RolledBack => None
      case Failed => None
    }

    predicate MayBecome(next: Phase) {
      if IsTerminal() then false
      else if next == Failed || next == RolledBack then true
      else if this == Failed then next == CrosswalkReview
      else if this == Verify && next == Transfer then true
      else Next() == Some(next)
    }
  }

  /** A history of a job's phase: each one may become the one after it. */
  ghost predicate IsPhaseHistory(phases: seq<Phase>) {
    && phases != [] && phases[0] == Discover
    && forall i :: 0 <= i < |phases| - 1 ==> phases[i].MayBecome(phases[i + 1])
  }

  predicate MovesAssets(phase: Phase) {
    phase == Transfer || phase == Verify || phase == Complete
  }

  /** No run skips its own review. However a job came to move assets, it passed through a review of the crosswalk
      and then, without failing in between, through a dry run. */
  lemma {:induction false} ReviewIsNeverSkipped(phases: seq<Phase>) returns (review: nat, dry: nat)
    requires IsPhaseHistory(phases) && MovesAssets(phases[|phases| - 1])
    ensures review + 1 == dry < |phases| - 1
    ensures phases[review] == CrosswalkReview && phases[dry] == DryRun
    ensures forall i :: dry < i < |phases| ==> MovesAssets(phases[i])
    decreases |phases|
  {
    var n := |phases| - 1;
    assert phases[n - 1].MayBecome(phases[n]);
    if MovesAssets(phases[n - 1]) {
      review, dry := ReviewIsNeverSkipped(phases[..n]);
      assert forall i :: dry < i < n ==> phases[i] == phases[..n][i];
    } else {
      assert phases[n - 1] == DryRun && n - 1 > 0;
      assert phases[n - 2].MayBecome(phases[n - 1]);
      review, dry := n - 2, n - 1;
    }
  }

  /** A finished run stays finished, and the only way back is the batch loop from the gate to the transfer, or from
      a failure to the review. */
  lemma {:induction false} PhasesGoForward(from: Phase, to: Phase)
    requires from.MayBecome(to)
    ensures !from.IsTerminal() && to != Discover
    ensures Rank(to) > Rank(from) || (from == Verify && to == Transfer) || from == Failed
    ensures from == Failed ==> to == CrosswalkReview || to == RolledBack || to == Failed
  {
  }

  /** Exactly which moves are allowed: one step along the run, failing or rolling back from anywhere but an end, the
      batch
      loop, and from a failure back to the review. */
  lemma {:induction false} MovesAreThese(from: Phase, to: Phase)
    ensures from.MayBecome(to)
            <==> from != Complete && from != RolledBack
                 && (to == RolledBack || to == Failed
                     || (from != Failed && Rank(to) == Rank(from) + 1 && Rank(to) <= 5)
                     || (from == Verify && to == Transfer) || (from == Failed && to == CrosswalkReview))
  {
  }

  /** Every phase can be come to. */
  lemma {:induction false} EveryPhaseIsReached(phase: Phase) returns (phases: seq<Phase>)
    ensures IsPhaseHistory(phases) && phases[|phases| - 1] == phase
  {
    var run := [Discover, CrosswalkReview, DryRun, Transfer, Verify, Complete];
    phases := if phase == Failed || phase == RolledBack then [Discover, phase] else run[..Rank(phase) + 1];
  }

  function Rank(phase: Phase): nat {
    match phase
    case Discover => 0
    case CrosswalkReview => 1
    case DryRun => 2
    case Transfer => 3
    case Verify => 4
    case Complete => 5
    case RolledBack => 6
    case Failed => 7
  }

  // ---------- rows ----------

  type AssetId = nat

  datatype RecordState = Pending | Migrated | Refused | Undone

  /** Why a row is in trouble: what the mapping said, or what the transfer said. */
  datatype Trouble = NotMapped(loss: Loss) | NotTransferred(reason: string)

  /** One source asset's fate. `Refused` is the state "failed", `Undone` is "rolled_back". */
  datatype Row = Row(state: RecordState, asset: Option<AssetId>, warnings: seq<Warning>, error: Option<Trouble>)

  /** The job row with its record rows, as a value. */
  datatype Ledger = Ledger(
    phase: Phase, crosswalk: Crosswalk, report: Option<Report>, discovered: nat, batchSize: int,
    rows: map<string, Row>, migratedCount: int, failedCount: int)

  predicate IsMigrated(ledger: Ledger, id: string) {
    id in ledger.rows && ledger.rows[id].state == Migrated
  }

  ghost function MigratedIds(ledger: Ledger): set<string> {
    set id | id in ledger.rows && ledger.rows[id].state == Migrated
  }

  ghost function RefusedIds(ledger: Ledger): set<string> {
    set id | id in ledger.rows && ledger.rows[id].state == Refused
  }

  function NewJob(batchSize: int): Ledger {
    Ledger(Discover, Crosswalk([], []), None, 0,
           if batchSize < 1 then 1 else if batchSize > 10_000 then 10_000 else batchSize, map[], 0, 0)
  }

  datatype Refusal = NotForward(from: Phase, to: Phase)

  function Advanced(ledger: Ledger, to: Phase): Result<Ledger, Refusal> {
    if ledger.phase.MayBecome(to) then Ok(ledger.(phase := to)) else Err(NotForward(ledger.phase, to))
  }

  function WithCrosswalk(ledger: Ledger, crosswalk: Crosswalk): Result<Ledger, Refusal> {
    if ledger.phase.IsTerminal() then Err(NotForward(ledger.phase, CrosswalkReview))
    else Ok(ledger.(crosswalk := crosswalk))
  }

  function WithReport(ledger: Ledger, discovered: nat, report: Report): Ledger {
    ledger.(discovered := discovered, report := Some(report))
  }

  /** The upsert behind `note`. A migrated row keeps its state, and is only touched at all when its warnings changed. */
  function NotedRow(row: Option<Row>, warnings: seq<Warning>, error: Option<Trouble>): Row {
    var state := if error.None? then Pending else Refused;
    match row
    case None => Row(state, None, warnings, error)
    case Some(before) =>
      if before.state == Migrated && before.warnings == warnings then before
      else Row(if before.state == Migrated then Migrated else state, before.asset, warnings, error)
  }

  function Find(ledger: Ledger, id: string): Option<Row> {
    if id in ledger.rows then Some(ledger.rows[id]) else None
  }

  function Noted(ledger: Ledger, id: string, warnings: seq<Warning>, error: Option<Trouble>): Ledger {
    ledger.(rows := ledger.rows[id := NotedRow(Find(ledger, id), warnings, error)])
  }

  function MarkedMigrated(ledger: Ledger, id: string, asset: AssetId): Ledger {
    if id !in ledger.rows || ledger.rows[id].state == Migrated then ledger
    else ledger.(rows := ledger.rows[id := ledger.rows[id].(state := Migrated, asset := Some(asset), error := None)],
                 migratedCount := ledger.migratedCount + 1)
  }

  function MarkedFailed(ledger: Ledger, id: string, reason: string): Ledger {
    if id !in ledger.rows || ledger.rows[id].state == Migrated then ledger
    else ledger.(rows := ledger.rows[id := ledger.rows[id].(state := Refused, error := Some(NotTransferred(reason)))],
                 failedCount := ledger.failedCount + 1)
  }

  ghost function Recounted(ledger: Ledger): Ledger {
    ledger.(migratedCount := |MigratedIds(ledger)|, failedCount := |RefusedIds(ledger)|)
  }

  ghost function MarkedRolledBack(ledger: Ledger): Ledger {
    ledger.(rows := map id | id in ledger.rows ::
                      if ledger.rows[id].state == Migrated then ledger.rows[id].(state := Undone, asset := None)
                      else ledger.rows[id])
  }

  /** A new job waits to be given a crosswalk; its batches are as large as was asked, within one and ten thousand. */
  lemma {:induction false} NewJobIsEmpty(batchSize: int)
    ensures var job := NewJob(batchSize);
            && job.phase == Discover && job.report == None && job.rows == map[] && job.crosswalk == Crosswalk([], [])
            && job.discovered == 0 == job.migratedCount == job.failedCount
            && 1 <= job.batchSize <= 10_000
            && (1 <= batchSize <= 10_000 ==> job.batchSize == batchSize)
            && (batchSize < 1 ==> job.batchSize == 1) && (batchSize > 10_000 ==> job.batchSize == 10_000)
  {
  }

  // ---------- what one update of a row means ----------

  ghost predicate OthersKept(before: Ledger, after: Ledger, id: string) {
    forall other :: other != id ==> Find(after, other) == Find(before, other)
  }

  /** Noting a record never un-migrates it, never changes which asset it names, and touches no other row and no
      other column of the job. A record that is not migrated comes to say what was noted. */
  lemma {:induction false} NoteKeeps(ledger: Ledger, id: string, warnings: seq<Warning>, error: Option<Trouble>)
    ensures var after := Noted(ledger, id, warnings, error);
            && MigratedIds(after) == MigratedIds(ledger) && OthersKept(ledger, after, id)
            && after == ledger.(rows := after.rows) && id in after.rows
            && (id in ledger.rows ==> after.rows[id].asset == ledger.rows[id].asset)
            && after.rows[id].warnings == warnings
            && (IsMigrated(ledger, id)
                ==> after.rows[id].error == if ledger.rows[id].warnings == warnings then ledger.rows[id].error
                    else error)
            && (!IsMigrated(ledger, id)
                ==> after.rows[id].error == error && after.rows[id].state == if error.None? then Pending else Refused)
  {
  }

  /** Recording an arrival migrates a known row, names its asset and clears its error, and keeps the counter in step
      with the rows. A row that already says so keeps the asset it names, so recording twice is recording once. */
  lemma {:induction false} ArrivalIsRecordedOnce(ledger: Ledger, id: string, asset: AssetId, other: AssetId)
    ensures var after := MarkedMigrated(ledger, id, asset);
            && MigratedIds(after) == MigratedIds(ledger) + (if id in ledger.rows then {id} else {})
            && after.migratedCount - ledger.migratedCount == |MigratedIds(after)| - |MigratedIds(ledger)|
            && after == ledger.(rows := after.rows, migratedCount := after.migratedCount)
            && OthersKept(ledger, after, id)
            && (id in ledger.rows && !IsMigrated(ledger, id)
                ==> after.rows[id] == Row(Migrated, Some(asset), ledger.rows[id].warnings, None))
            && (IsMigrated(ledger, id) ==> after.rows[id] == ledger.rows[id])
            && MarkedMigrated(after, id, other) == after
  {
    var after := MarkedMigrated(ledger, id, asset);
    forall x
      ensures IsMigrated(after, x) <==> IsMigrated(ledger, x) || (x == id && id in ledger.rows)
    {
    }
    assert MigratedIds(after) == MigratedIds(ledger) + (if id in ledger.rows then {id} else {}) by {
      assert forall x :: x in MigratedIds(after) <==> IsMigrated(after, x);
    }
    assert IsMigrated(ledger, id) <==> id in MigratedIds(ledger);
  }

  /** Recording a refusal marks a known row that is not migrated, and never one that is. The counter goes up each
      time a row is refused, so it stays in step with the rows exactly when the row was not already refused. */
  lemma {:induction false} RefusalIsRecorded(ledger: Ledger, id: string, reason: string)
    ensures var after := MarkedFailed(ledger, id, reason);
            && MigratedIds(after) == MigratedIds(ledger)
            && RefusedIds(after)
               == RefusedIds(ledger) + (if id in ledger.rows && !IsMigrated(ledger, id) then {id} else {})
            && after == ledger.(rows := after.rows, failedCount := after.failedCount)
            && OthersKept(ledger, after, id)
            && (id in RefusedIds(after) && !IsMigrated(ledger, id)
                ==> after.rows[id].error == Some(NotTransferred(reason)))
            && (id in ledger.rows ==> after.rows[id].asset == ledger.rows[id].asset)
            && (after.failedCount - ledger.failedCount == |RefusedIds(after)| - |RefusedIds(ledger)|
                <==> id !in RefusedIds(ledger))
  {
    var after := MarkedFailed(ledger, id, reason);
    forall x
      ensures IsMigrated(after, x) <==> IsMigrated(ledger, x)
    {
    }
    assert forall x :: x in MigratedIds(after) <==> IsMigrated(after, x);
    assert forall x :: x in MigratedIds(ledger) <==> IsMigrated(ledger, x);
    assert RefusedIds(after)
           == RefusedIds(ledger) + (if id in ledger.rows && !IsMigrated(ledger, id) then {id} else {});
    assert id in RefusedIds(ledger) ==> RefusedIds(after) == RefusedIds(ledger);
  }

  /** How far the failed counter is ahead of the rows. */
  ghost function FailedDrift(ledger: Ledger): int {
    ledger.failedCount - |RefusedIds(ledger)|
  }

  lemma {:induction false} SizeWithout(ids: set<string>, id: string)
    ensures |ids| == |ids - {id}| + One01(id in ids)
  {
    assert id in ids ==> ids == (ids - {id}) + {id};
    assert id !in ids ==> ids == ids - {id};
  }

  lemma {:induction false} RefusedOneMoreOrLess(before: Ledger, after: Ledger, id: string)
    requires OthersKept(before, after, id)
    ensures |RefusedIds(after)| - |RefusedIds(before)|
            == One01(id in RefusedIds(after)) - One01(id in RefusedIds(before))
  {
    forall other | other != id
      ensures other in RefusedIds(after) <==> other in RefusedIds(before)
    {
      assert Find(after, other) == Find(before, other);
    }
    assert RefusedIds(after) - {id} == RefusedIds(before) - {id};
    SizeWithout(RefusedIds(after), id);
    SizeWithout(RefusedIds(before), id);
  }

  /** Exactly how a note takes the failed counter from the rows: it does not count, so trouble noted on a row not yet
      failed leaves the counter one behind, and a note that clears a failed row leaves it one ahead. */
  lemma {:induction false} NoteDrifts(ledger: Ledger, id: string, warnings: seq<Warning>, error: Option<Trouble>)
    ensures FailedDrift(Noted(ledger, id, warnings, error)) - FailedDrift(ledger)
            == if IsMigrated(ledger, id) then 0 else One01(id in RefusedIds(ledger)) - One01(error.Some?)
  {
    NoteKeeps(ledger, id, warnings, error);
    RefusedOneMoreOrLess(ledger, Noted(ledger, id, warnings, error), id);
  }

  /** And an arrival or a refusal: each puts it one ahead when the row was already failed, and only then. */
  lemma {:induction false} OutcomeDrifts(ledger: Ledger, id: string, asset: AssetId, reason: string)
    ensures FailedDrift(MarkedMigrated(ledger, id, asset)) - FailedDrift(ledger) == One01(id in RefusedIds(ledger))
    ensures FailedDrift(MarkedFailed(ledger, id, reason)) - FailedDrift(ledger) == One01(id in RefusedIds(ledger))
  {
    RefusedOneMoreOrLess(ledger, MarkedMigrated(ledger, id, asset), id);
    RefusedOneMoreOrLess(ledger, MarkedFailed(ledger, id, reason), id);
  }

  /** A rollback leaves the failed counter where it was against the rows, and a recount brings them together. */
  lemma {:induction false} RecountEndsTheDrift(ledger: Ledger)
    ensures FailedDrift(MarkedRolledBack(ledger)) == FailedDrift(ledger) && FailedDrift(Recounted(ledger)) == 0
  {
    assert RefusedIds(MarkedRolledBack(ledger)) == RefusedIds(ledger);
    assert RefusedIds(Recounted(ledger)) == RefusedIds(ledger);
  }

  // ---------- the tables, updated in place ----------

  class Job {
    var phase: Phase
    var crosswalk: Crosswalk
    var report: Option<Report>
    var discovered: nat
    var batchSize: int
    var rows: map<string, Row>
    var migratedCount: int
    var failedCount: int

    ghost function View(): Ledger
      reads this
    {
      Ledger(phase, crosswalk, report, discovered, batchSize, rows, migratedCount, failedCount)
    }

    constructor Create(batchSize: int)
      ensures View() == NewJob(batchSize)
      ensures 1 <= this.batchSize <= 10_000
    {
      this.phase, this.crosswalk, this.report, this.discovered := Discover, Crosswalk([], []), None, 0;
      this.batchSize := if batchSize < 1 then 1 else if batchSize > 10_000 then 10_000 else batchSize;
      this.rows, this.migratedCount, this.failedCount := map[], 0, 0;
    }

    method SetCrosswalk(mapping: Crosswalk) returns (outcome: Result<(), Refusal>)
      modifies this`crosswalk
      ensures match WithCrosswalk(old(View()), mapping)
              case Ok(after) => outcome == Ok(()) && View() == after
              case Err(refusal) => outcome == Err(refusal) && View() == old(View())
    {
      if phase.IsTerminal() {
        return Err(NotForward(phase, CrosswalkReview));
      }
      crosswalk := mapping;
      outcome := Ok(());
    }

    method Advance(to: Phase) returns (outcome: Result<(), Refusal>)
      modifies this`phase
      ensures match Advanced(old(View()), to)
              case Ok(after) => outcome == Ok(()) && View() == after
              case Err(refusal) => outcome == Err(refusal) && View() == old(View())
    {
      if !phase.MayBecome(to) {
        return Err(NotForward(phase, to));
      }
      phase := to;
      outcome := Ok(());
    }

    method SetReport(count: nat, found: Report)
      modifies this`discovered, this`report
      ensures View() == WithReport(old(View()), count, found)
    {
      discovered, report := count, Some(found);
    }

    method Note(id: string, warnings: seq<Warning>, error: Option<Trouble>)
      modifies this`rows
      ensures View() == Noted(old(View()), id, warnings, error)
    {
      var row := if id in rows then Some(rows[id]) else None;
      rows := rows[id := NotedRow(row, warnings, error)];
    }

    method MarkMigrated(id: string, asset: AssetId)
      modifies this`rows, this`migratedCount
      ensures View() == MarkedMigrated(old(View()), id, asset)
    {
      if id in rows && rows[id].state != Migrated {
        rows := rows[id := rows[id].(state := Migrated, asset := Some(asset), error := None)];
        migratedCount := migratedCount + 1;
      }
    }

    method MarkFailed(id: string, reason: string)
      modifies this`rows, this`failedCount
      ensures View() == MarkedFailed(old(View()), id, reason)
    {
      if id in rows && rows[id].state != Migrated {
        rows := rows[id := rows[id].(state := Refused, error := Some(NotTransferred(reason)))];
        failedCount := failedCount + 1;
      }
    }

    /** Counters are a convenience; the rows are the truth, and this makes them agree again. */
    method Recount()
      modifies this`migratedCount, this`failedCount
      ensures View() == Recounted(old(View()))
    {
      var migrated := set id | id in rows && rows[id].state == Migrated;
      var refused := set id | id in rows && rows[id].state == Refused;
      migratedCount, failedCount := |migrated|, |refused|;
    }

    method MarkRolledBack() returns (marked: nat)
      modifies this`rows
      ensures View() == MarkedRolledBack(old(View()))
      ensures marked == |MigratedIds(old(View()))|
    {
      var migrated := set id | id in rows && rows[id].state == Migrated;
      marked := |migrated|;
      rows := map id | id in rows ::
                if rows[id].state == Migrated then rows[id].(state := Undone, asset := None) else rows[id];
    }
  }
}
