/** What a migration guarantees over every sequence of commands and every interruption, and where it stops
    guaranteeing it. */
module ImportLaws {
  import opened Crosswalk
  import opened Damctl
  import opened Imports
  import opened Transfer
  import opened TransferLaws
  import opened Wrappers

  // ---------- what a run creates ----------

  /** Creation, recording and queueing, counted over a stretch of a run. */
  ghost predicate Accounted(before: World, after: World, stray: nat, unqueued: nat) {
    && after.shelf.next == before.shelf.next + |MigratedIds(after.ledger)| - |MigratedIds(before.ledger)| + stray
    && |after.shelf.queue| + unqueued
       == |before.shelf.queue| + |MigratedIds(after.ledger)| - |MigratedIds(before.ledger)|
    && after.ledger.migratedCount - before.ledger.migratedCount
       == |MigratedIds(after.ledger)| - |MigratedIds(before.ledger)|
  }

  /** The run was interrupted, and that way. */
  ghost predicate Died(run: Run, forecast: Forecast, how: Weather) {
    run.end.Stopped? && forecast(run.tally.seen) == how
  }

  lemma {:induction false} RecordAccounted(w: World, id: string, verdict: Verdict, weather: Weather, after: World,
      attempt: Attempt)
    requires OneRecordDone(w, id, verdict, weather, after, attempt)
    ensures Accounted(w, after, One01(attempt.Interrupted? && weather.DiesBeforeRecording?),
                      One01(attempt.Interrupted? && weather.DiesBeforeQueueing?))
    ensures attempt.Done? ==> |MigratedIds(after.ledger)| - |MigratedIds(w.ledger)| == One01(attempt.outcome.Moved?)
  {
    if Records(w, id, verdict, weather) {
      assert id !in MigratedIds(w.ledger);
    }
  }

  /** A run accounts for what it did: a stray asset or an unqueued one exactly if it died there, and its count. */
  ghost predicate RunAccounted(w: World, run: Run, forecast: Forecast, tally: Tally) {
    && Accounted(w, run.world, One01(Died(run, forecast, DiesBeforeRecording)),
                 One01(Died(run, forecast, DiesBeforeQueueing)))
    && (!run.end.Stopped?
        ==> run.tally.migrated - tally.migrated == |MigratedIds(run.world.ledger)| - |MigratedIds(w.ledger)|)
  }

  lemma {:induction false} OneMoreAccounted(w: World, next: World, run: Run, forecast: Forecast, tally: Tally,
                                            outcome: Outcome)
    requires Accounted(w, next, 0, 0)
    requires |MigratedIds(next.ledger)| - |MigratedIds(w.ledger)| == One01(outcome.Moved?)
    requires RunAccounted(next, run, forecast, Tallied(tally.(seen := tally.seen + 1), outcome))
    ensures RunAccounted(w, run, forecast, tally)
  {
  }

  lemma {:induction false} LoopAccounted(step: Step, ingest: Ingest, forecast: Forecast, ceiling: int,
                                         entries: seq<Entry>, w: World, tally: Tally)
    requires Honest(step, ingest, forecast)
    ensures RunAccounted(w, EntryLoop(ceiling, step, entries, w, tally), forecast, tally)
    decreases |entries|
  {
    if entries != [] && tally.migrated < ceiling {
      var seen := tally.(seen := tally.seen + 1);
      var after, attempt := step(w, entries[0], seen.seen).0, step(w, entries[0], seen.seen).1;
      RecordAccounted(w, entries[0].id, ingest(entries[0].record), forecast(seen.seen), after, attempt);
      if attempt.Done? {
        LoopAccounted(step, ingest, forecast, ceiling, entries[1..], after, Tallied(seen, attempt.outcome));
        OneMoreAccounted(w, after, EntryLoop(ceiling, step, entries[1..], after, Tallied(seen, attempt.outcome)),
                         forecast,
                         tally, attempt.outcome);
      }
    }
  }

  /** A transfer creates exactly one asset and queues exactly one derivation for each record it comes to record, and
      counts each once, with two exceptions, each at most once a run: dying after the ingest and before the row
      leaves one asset no row names, so moving that record again makes a second; dying after the row and before the
      queue leaves one recorded asset that nothing will derive. */
  lemma {:induction false} TransferAccounted(port: Port, w: World, request: TransferRequest)
    requires request.confirm && MayTransfer(w.ledger.phase)
    ensures var run := TransferRun(port, w, request);
            && Accounted(w, run.world, One01(Died(run, request.forecast, DiesBeforeRecording)),
                         One01(Died(run, request.forecast, DiesBeforeQueueing)))
            && (!run.end.Stopped? ==> run.tally.migrated == |MigratedIds(run.world.ledger)| - |MigratedIds(w.ledger)|)
  {
    var crosswalk := IgnoringId(w.ledger.crosswalk, request.idField);
    var step := Stepping(port, crosswalk, request.forecast);
    var ceiling := Ceiling(request, w.ledger.batchSize);
    var started := w.(ledger := w.ledger.(phase := Transfer));
    var none := Tally(0, 0, 0, 0);
    SteppingIsHonest(port, crosswalk, request.forecast);
    TransferReadsEntries(port.read, request.idField, ceiling, step, request.lines, started, none);
    LoopAccounted(step, port.ingest, request.forecast, ceiling, Entries(port.read, request.idField, request.lines, 0),
                  started, none);
    assert MigratedIds(started.ledger) == MigratedIds(w.ledger);
  }

  // ---------- what a run leaves alone, and what it delivers ----------

  /** A migrated row naming a live asset that carries a payload over what its ingest gave it: under each key of the
      payload its value, or nothing where that is null, and under every other key what the ingest gave. */
  ghost predicate Delivered(w: World, id: string, given: Payload, payload: Payload) {
    && IsMigrated(w.ledger, id) && w.ledger.rows[id].asset.Some? && w.ledger.rows[id].asset.value in w.shelf.assets
    && var asset := w.shelf.assets[w.ledger.rows[id].asset.value];
       && !asset.deleted && !asset.held
       && forall key :: HeldIn(asset.metadata, key) == PatchedAt(given, payload, key)
  }

  /** A record that came with a file: delivered with what its ingest gave and what it was mapped to. */
  ghost predicate RecordDelivered(w: World, id: string, verdict: Verdict, payload: Payload) {
    verdict.Arrives? && Delivered(w, id, verdict.given, payload)
  }

  ghost predicate StepDelivers(step: Step, ingest: Ingest, forecast: Forecast, payloadOf: Record -> Payload) {
    forall w: World, entry: Entry, k: nat ::
      Sound(w) ==> EntryDelivered(w, entry, ingest, forecast(k), payloadOf, step(w, entry, k).0)
  }

  ghost predicate EntryDelivered(w: World, entry: Entry, ingest: Ingest, weather: Weather,
                                 payloadOf: Record -> Payload, after: World) {
    && Sound(after) && KeepsMigrated(w, after)
    && (Records(w, entry.id, ingest(entry.record), weather)
        ==> RecordDelivered(after, entry.id, ingest(entry.record), payloadOf(entry.record)))
  }

  ghost function Payloads(port: Port, crosswalk: Crosswalk): Record -> Payload {
    (record: Record) => PayloadOf(port, crosswalk, record)
  }

  lemma {:induction false} SteppingDelivers(port: Port, crosswalk: Crosswalk, forecast: Forecast)
    ensures StepDelivers(Stepping(port, crosswalk, forecast), port.ingest, forecast, Payloads(port, crosswalk))
  {
    forall w: World, entry: Entry, k: nat | Sound(w)
      ensures EntryDelivered(w, entry, port.ingest, forecast(k), Payloads(port, crosswalk),
                             Stepping(port, crosswalk, forecast)(w, entry, k).0)
    {
      var payload, verdict := PayloadOf(port, crosswalk, entry.record), port.ingest(entry.record);
      OneKeeps(w, entry.id, payload, verdict, forecast(k));
      if Records(w, entry.id, verdict, forecast(k)) {
        RecordedMove(w, entry.id, payload, verdict, forecast(k));
        assert forall key :: HeldIn(Patched(verdict.given, payload), key) == PatchedAt(verdict.given, payload, key);
      }
    }
  }

  /** The first transferable record of an id, from a place in the stream on. */
  ghost predicate FirstTransferable(ingest: Ingest, all: seq<Entry>, i: nat, id: string, k: int) {
    && i <= k < |all| && all[k].id == id && ingest(all[k].record).Arrives?
    && forall j :: i <= j < k && all[j].id == id ==> ingest(all[j].record).Refuses?
  }

  ghost predicate DeliveredFrom(ingest: Ingest, all: seq<Entry>, i: nat, payloadOf: Record -> Payload, before: World,
                                after: World, id: string) {
    IsMigrated(after.ledger, id) && !IsMigrated(before.ledger, id)
    ==> exists k :: FirstTransferable(ingest, all, i, id, k)
                    && RecordDelivered(after, id, ingest(all[k].record), payloadOf(all[k].record))
  }

  /** From a place in the stream on, every id that came to be migrated was delivered by its first transferable
      record. */
  ghost predicate AllDeliveredFrom(ingest: Ingest, all: seq<Entry>, i: nat, payloadOf: Record -> Payload,
                                   before: World, after: World)
  {
    forall id :: DeliveredFrom(ingest, all, i, payloadOf, before, after, id)
  }

  ghost predicate AllDelivered(ingest: Ingest, all: seq<Entry>, payloadOf: Record -> Payload, before: World,
                               after: World) {
    AllDeliveredFrom(ingest, all, 0, payloadOf, before, after)
  }

  lemma {:induction false} KeepingIsTransitive(before: World, between: World, after: World)
    requires KeepsMigrated(before, between) && KeepsMigrated(between, after)
    ensures KeepsMigrated(before, after)
  {
  }

  /** What a run does from a place in the stream on. */
  ghost predicate DeliversFrom(ingest: Ingest, all: seq<Entry>, i: nat, payloadOf: Record -> Payload, w: World,
                               after: World) {
    Sound(after) && KeepsMigrated(w, after) && AllDeliveredFrom(ingest, all, i, payloadOf, w, after)
  }

  lemma {:induction false} LoopDelivers(step: Step, ingest: Ingest, forecast: Forecast, payloadOf: Record -> Payload,
                                        ceiling: int, all: seq<Entry>, i: nat, w: World, tally: Tally)
    requires Honest(step, ingest, forecast) && StepDelivers(step, ingest, forecast, payloadOf)
    requires Sound(w) && i <= |all|
    ensures DeliversFrom(ingest, all, i, payloadOf, w, EntryLoop(ceiling, step, all[i..], w, tally).world)
    decreases |all| - i
  {
    if i < |all| && tally.migrated < ceiling {
      assert all[i..][0] == all[i] && all[i..][1..] == all[i + 1..];
      var seen := tally.(seen := tally.seen + 1);
      var entry, weather := all[i], forecast(seen.seen);
      var next, attempt := step(w, entry, seen.seen).0, step(w, entry, seen.seen).1;
      assert OneRecordDone(w, entry.id, ingest(entry.record), weather, next, attempt);
      assert EntryDelivered(w, entry, ingest, weather, payloadOf, next);
      if attempt.Done? {
        LoopDelivers(step, ingest, forecast, payloadOf, ceiling, all, i + 1, next, Tallied(seen, attempt.outcome));
      }
      StepThenAllTheRest(ingest, payloadOf, all, i, w, next, EntryLoop(ceiling, step, all[i..], w, tally).world,
                         weather,
                         attempt);
    }
  }

  lemma {:induction false} StepThenAllTheRest(ingest: Ingest, payloadOf: Record -> Payload, all: seq<Entry>, i: nat,
                                              w: World, next: World, after: World, weather: Weather, attempt: Attempt)
    requires i < |all|
    requires OneRecordDone(w, all[i].id, ingest(all[i].record), weather, next, attempt)
    requires EntryDelivered(w, all[i], ingest, weather, payloadOf, next)
    requires if attempt.Done? then DeliversFrom(ingest, all, i + 1, payloadOf, next, after) else after == next
    ensures DeliversFrom(ingest, all, i, payloadOf, w, after)
  {
    KeepingIsTransitive(w, next, after);
    forall id
      ensures DeliveredFrom(ingest, all, i, payloadOf, w, after, id)
    {
      StepThenRest(ingest, payloadOf, all, i, w, next, after, weather, attempt, id);
    }
  }

  lemma {:induction false} StepThenRest(ingest: Ingest, payloadOf: Record -> Payload, all: seq<Entry>, i: nat,
      w: World, next: World, after: World,
                     weather: Weather, attempt: Attempt, id: string)
    requires i < |all|
    requires OneRecordDone(w, all[i].id, ingest(all[i].record), weather, next, attempt)
    requires EntryDelivered(w, all[i], ingest, weather, payloadOf, next)
    requires KeepsMigrated(next, after)
    requires attempt.Interrupted? ==> after == next
    requires attempt.Done? ==> DeliveredFrom(ingest, all, i + 1, payloadOf, next, after, id)
    ensures DeliveredFrom(ingest, all, i, payloadOf, w, after, id)
  {
    if IsMigrated(after.ledger, id) && !IsMigrated(w.ledger, id) {
      if IsMigrated(next.ledger, id) {
        assert id in MigratedIds(next.ledger) && id !in MigratedIds(w.ledger);
        assert FirstTransferable(ingest, all, i, id, i)
               && RecordDelivered(after, id, ingest(all[i].record), payloadOf(all[i].record));
      } else {
        var k :| FirstTransferable(ingest, all, i + 1, id, k)
                 && RecordDelivered(after, id, ingest(all[k].record), payloadOf(all[k].record));
        assert all[i].id == id ==> ingest(all[i].record).Refuses? by {
          assert id !in MigratedIds(next.ledger);
        }
        assert FirstTransferable(ingest, all, i, id, k);
      }
    }
  }

  lemma {:induction false} RunDelivers(port: Port, w: World, request: TransferRequest)
    requires Sound(w)
    ensures var all := Entries(port.read, request.idField, request.lines, 0);
            var payloadOf := Payloads(port, IgnoringId(w.ledger.crosswalk, request.idField));
            var started := w.(ledger := w.ledger.(phase := Transfer));
            var after := TransferRun(port, w, request).world;
            && Sound(after) && KeepsMigrated(started, after)
            && AllDelivered(port.ingest, all, payloadOf, started, after)
  {
    var all := Entries(port.read, request.idField, request.lines, 0);
    var crosswalk := IgnoringId(w.ledger.crosswalk, request.idField);
    var step := Stepping(port, crosswalk, request.forecast);
    var ceiling := Ceiling(request, w.ledger.batchSize);
    var started := w.(ledger := w.ledger.(phase := Transfer));
    var none := Tally(0, 0, 0, 0);
    SteppingIsHonest(port, crosswalk, request.forecast);
    SteppingDelivers(port, crosswalk, request.forecast);
    TransferReadsEntries(port.read, request.idField, ceiling, step, request.lines, started, none);
    assert all[0..] == all;
    LoopDelivers(step, port.ingest, request.forecast, Payloads(port, crosswalk), ceiling, all, 0, started, none);
  }

  /** These notions read only the rows and the shelf. */
  lemma {:induction false} OnlyRowsMatter(before: World, after: World, before': World, after': World)
    requires before.shelf == before'.shelf && before.ledger.rows == before'.ledger.rows
    requires after.shelf == after'.shelf && after.ledger.rows == after'.ledger.rows
    ensures Sound(after) ==> Sound(after')
    ensures KeepsMigrated(before, after) ==> KeepsMigrated(before', after')
  {
  }

  lemma {:induction false} OnlyRowsMatterTo(ingest: Ingest, all: seq<Entry>, payloadOf: Record -> Payload,
      before: World, after: World, before': World, after': World)
    requires before.ledger.rows == before'.ledger.rows
    requires after.shelf == after'.shelf && after.ledger.rows == after'.ledger.rows
    requires AllDelivered(ingest, all, payloadOf, before, after)
    ensures AllDelivered(ingest, all, payloadOf, before', after')
  {
    forall id
      ensures DeliveredFrom(ingest, all, 0, payloadOf, before', after', id)
    {
      assert DeliveredFrom(ingest, all, 0, payloadOf, before, after, id);
      if IsMigrated(after'.ledger, id) && !IsMigrated(before'.ledger, id) {
        var k :| FirstTransferable(ingest, all, 0, id, k)
                 && RecordDelivered(after, id, ingest(all[k].record), payloadOf(all[k].record));
        assert RecordDelivered(after', id, ingest(all[k].record), payloadOf(all[k].record));
      }
    }
  }

  /** A transfer in any weather touches nothing that was already migrated, neither row nor asset, and so moves no
      record twice. Each record it newly moves is the first transferable one of its id, and its asset holds what the
      stored crosswalk maps that record to, laid over what the ingest gave it. */
  lemma {:induction false} TransferDelivers(port: Port, w: World, request: TransferRequest)
    requires request.confirm && MayTransfer(w.ledger.phase) && Sound(w)
    ensures var all := Entries(port.read, request.idField, request.lines, 0);
            var payloadOf := Payloads(port, IgnoringId(w.ledger.crosswalk, request.idField));
            var after := TransferResult(port, w, request).0;
            && Sound(after) && KeepsMigrated(w, after)
            && AllDelivered(port.ingest, all, payloadOf, w, after)
  {
    RunDelivers(port, w, request);
    var all := Entries(port.read, request.idField, request.lines, 0);
    var payloadOf := Payloads(port, IgnoringId(w.ledger.crosswalk, request.idField));
    var started := w.(ledger := w.ledger.(phase := Transfer));
    var run := TransferRun(port, w, request).world;
    var after := TransferResult(port, w, request).0;
    OnlyRowsMatter(started, run, w, after);
    OnlyRowsMatterTo(port.ingest, all, payloadOf, started, run, w, after);
  }
}
