/** A transfer that is run again and again over one stream, whatever interrupts it: what all its runs together leave
    alone, deliver, create and queue. */
module ResumeLaws {
  import opened Crosswalk
  import opened Damctl
  import opened Imports
  import opened ImportLaws
  import opened Transfer
  import opened TransferLaws
  import opened Wrappers

  ghost function RequestOf(lines: seq<string>, idField: string, plan: Plan): TransferRequest {
    TransferRequest(lines, idField, plan.limit, true, plan.forecast)
  }

  /** How many of the runs were interrupted in a given way. */
  ghost function Deaths(port: Port, w: World, lines: seq<string>, idField: string, plans: seq<Plan>, how: Weather): nat
    decreases |plans|
  {
    if plans == [] then 0
    else One01(Died(TransferRun(port, w, RequestOf(lines, idField, plans[0])), plans[0].forecast, how))
         + Deaths(port, AfterPlan(port, w, lines, idField, plans[0]), lines, idField, plans[1..], how)
  }

  /** What one run delivered stays delivered, so two stretches of runs deliver together. */
  lemma {:induction false} DeliveriesAddUp(ingest: Ingest, all: seq<Entry>, payloadOf: Record -> Payload,
                                           before: World, between: World, after: World)
    requires Sound(between) && KeepsMigrated(between, after)
    requires AllDelivered(ingest, all, payloadOf, before, between)
             && AllDelivered(ingest, all, payloadOf, between, after)
    ensures AllDelivered(ingest, all, payloadOf, before, after)
  {
    forall id
      ensures DeliveredFrom(ingest, all, 0, payloadOf, before, after, id)
    {
      assert DeliveredFrom(ingest, all, 0, payloadOf, before, between, id);
      assert DeliveredFrom(ingest, all, 0, payloadOf, between, after, id);
      if IsMigrated(between.ledger, id) && !IsMigrated(before.ledger, id) {
        var k :| FirstTransferable(ingest, all, 0, id, k)
                 && RecordDelivered(between, id, ingest(all[k].record), payloadOf(all[k].record));
        assert RecordDelivered(after, id, ingest(all[k].record), payloadOf(all[k].record));
      }
    }
  }

  /** However often the transfer is resumed and whatever interrupts its runs, nothing migrated before the first of
      them is touched, and each record any of them moved is the first transferable one of its id and is delivered
      with what the stored crosswalk maps it to. */
  lemma {:induction false} ResumedRunsDeliver(port: Port, w: World, lines: seq<string>, idField: string,
                                              plans: seq<Plan>)
    requires MayTransfer(w.ledger.phase) && Sound(w)
    ensures var after := Repeated(port, w, lines, idField, plans);
            && Sound(after) && KeepsMigrated(w, after)
            && AllDelivered(port.ingest, Entries(port.read, idField, lines, 0),
                            Payloads(port, IgnoringId(w.ledger.crosswalk, idField)), w, after)
    decreases |plans|
  {
    if plans != [] {
      var request := RequestOf(lines, idField, plans[0]);
      var next := AfterPlan(port, w, lines, idField, plans[0]);
      var after := Repeated(port, next, lines, idField, plans[1..]);
      TransferDelivers(port, w, request);
      TransferKeepsJob(port, w, request);
      ResumedRunsDeliver(port, next, lines, idField, plans[1..]);
      KeepingIsTransitive(w, next, after);
      DeliveriesAddUp(port.ingest, Entries(port.read, idField, lines, 0),
                      Payloads(port, IgnoringId(w.ledger.crosswalk, idField)), w, next, after);
    }
  }

  /** Over all the runs together, one asset is made for each record that came to be recorded and one more for each
      run that died after an ingest and before the row; one derivation is queued for each recorded record, less one
      for each run that died after the row; and the counter agrees with the rows throughout. */
  lemma {:induction false} ResumedRunsAddUp(port: Port, w: World, lines: seq<string>, idField: string, plans: seq<Plan>)
    requires MayTransfer(w.ledger.phase) && w.ledger.migratedCount == |MigratedIds(w.ledger)|
    ensures var after := Repeated(port, w, lines, idField, plans);
            && Accounted(w, after, Deaths(port, w, lines, idField, plans, DiesBeforeRecording),
                         Deaths(port, w, lines, idField, plans, DiesBeforeQueueing))
            && after.ledger.migratedCount == |MigratedIds(after.ledger)|
    decreases |plans|
  {
    if plans != [] {
      var next := AfterPlan(port, w, lines, idField, plans[0]);
      OneRunAddsUp(port, w, RequestOf(lines, idField, plans[0]));
      ResumedRunsAddUp(port, next, lines, idField, plans[1..]);
    }
  }

  lemma {:induction false} OneRunAddsUp(port: Port, w: World, request: TransferRequest)
    requires request.confirm && MayTransfer(w.ledger.phase) && w.ledger.migratedCount == |MigratedIds(w.ledger)|
    ensures var run := TransferRun(port, w, request);
            var after := TransferResult(port, w, request).0;
            && Accounted(w, after, One01(Died(run, request.forecast, DiesBeforeRecording)),
                         One01(Died(run, request.forecast, DiesBeforeQueueing)))
            && after.ledger.migratedCount == |MigratedIds(after.ledger)| && MayTransfer(after.ledger.phase)
  {
    var run := TransferRun(port, w, request);
    TransferAccounted(port, w, request);
    TransferKeepsJob(port, w, request);
    assert MigratedIds(Recounted(run.world.ledger)) == MigratedIds(run.world.ledger);
  }
}
