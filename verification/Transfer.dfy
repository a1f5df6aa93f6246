/** Moving one source asset into the library, and everything that can interrupt it
    (crates/dam-pipeline/src/transfer.rs). */
module Transfer {
  import opened Crosswalk
  import opened Imports
  import opened Json
  import opened Wrappers

  datatype Asset = Asset(metadata: Payload, deleted: bool, held: bool)

  /** The library as a value: its assets, the next fresh id, and the derive jobs queued so far. */
  datatype Shelf = Shelf(assets: map<AssetId, Asset>, next: AssetId, queue: seq<AssetId>)

  datatype World = World(ledger: Ledger, shelf: Shelf)

  /** The ingest makes an asset and gives it metadata of its own: values embedded in the file, the upload profile's
      defaults. */
  function Ingested(shelf: Shelf, given: Payload): Shelf {
    shelf.(assets := shelf.assets[shelf.next := Asset(given, false, false)], next := shelf.next + 1)
  }

  /** A payload laid over stored metadata, key by key: a null clears its key, any other value replaces what was
      there, and a key the payload does not name keeps its value. */
  ghost function Patched(stored: Payload, payload: Payload): Payload {
    map key | key in stored.Keys + payload.Keys && (key in payload ==> payload[key] != Null) ::
      if key in payload then payload[key] else stored[key]
  }

  /** What a merge leaves under a key. */
  function PatchedAt(stored: Payload, payload: Payload, key: string): Option<Json> {
    if key !in payload then HeldIn(stored, key) else if payload[key] == Null then None else Some(payload[key])
  }

  /** The loop of the merge: the payload's entries, one by one. */
  method Patch(stored: Payload, payload: Payload) returns (document: Payload)
    ensures document == Patched(stored, payload)
    ensures forall key :: HeldIn(document, key) == PatchedAt(stored, payload, key)
  {
    document := stored;
    var pending := payload.Keys;
    while pending != {}
      invariant pending <= payload.Keys
      invariant forall key ::
                  HeldIn(document, key)
                  == if key in pending then HeldIn(stored, key) else PatchedAt(stored, payload, key)
      decreases |pending|
    {
      var key :| key in pending;
      ghost var before := document;
      if payload[key] == Null {
        document := document - {key};
      } else {
        document := document[key := payload[key]];
      }
      assert forall other :: other != key ==> HeldIn(document, other) == HeldIn(before, other);
      pending := pending - {key};
    }
    PatchedIsUnique(stored, payload, document);
  }

  lemma {:induction false} PatchedIsUnique(stored: Payload, payload: Payload, document: Payload)
    requires forall key :: HeldIn(document, key) == PatchedAt(stored, payload, key)
    ensures document == Patched(stored, payload)
  {
    var patched := Patched(stored, payload);
    forall key
      ensures HeldIn(document, key) == HeldIn(patched, key)
    {
      assert HeldIn(document, key) == PatchedAt(stored, payload, key);
    }
    SameMap(document, patched);
  }

  ghost function Merged(shelf: Shelf, id: AssetId, payload: Payload): Shelf
    requires id in shelf.assets
  {
    shelf.(assets := shelf.assets[id := shelf.assets[id].(metadata := Patched(shelf.assets[id].metadata, payload))])
  }

  lemma {:induction false} MergingNothing(shelf: Shelf, id: AssetId)
    requires id in shelf.assets
    ensures Merged(shelf, id, map[]) == shelf
  {
    assert Patched(shelf.assets[id].metadata, map[]) == shelf.assets[id].metadata;
  }

  function Queued(shelf: Shelf, id: AssetId): Shelf {
    shelf.(queue := shelf.queue + [id])
  }

  class Library {
    var assets: map<AssetId, Asset>
    var next: AssetId
    var queue: seq<AssetId>

    ghost function View(): Shelf
      reads this
    {
      Shelf(assets, next, queue)
    }

    method Ingest(given: Payload) returns (id: AssetId)
      modifies this
      ensures View() == Ingested(old(View()), given) && id == old(next)
    {
      id := next;
      assets := assets[id := Asset(given, false, false)];
      next := next + 1;
    }

    method Merge(id: AssetId, payload: Payload)
      requires id in assets
      modifies this`assets
      ensures View() == Merged(old(View()), id, payload)
    {
      var document := Patch(assets[id].metadata, payload);
      assets := assets[id := assets[id].(metadata := document)];
    }

    method Enqueue(id: AssetId)
      modifies this`queue
      ensures View() == Queued(old(View()), id)
    {
      queue := queue + [id];
    }

    /** The guarded update of a rollback: it takes only a live asset that nothing holds. */
    method SoftDelete(id: AssetId) returns (taken: nat)
      modifies this`assets
      ensures taken == if id in old(assets) && !old(assets)[id].deleted && !old(assets)[id].held then 1 else 0
      ensures taken == 0 ==> View() == old(View())
      ensures taken == 1 ==> View() == old(View()).(assets := old(assets)[id := old(assets)[id].(deleted := true)])
    {
      taken := 0;
      if id in assets && !assets[id].deleted && !assets[id].held {
        assets := assets[id := assets[id].(deleted := true)];
        taken := 1;
      }
    }
  }

  /** What the source and the ingest make of a record's file when nothing else is wrong: an asset with the metadata
      the ingest gives it, or a permanent refusal. */
  datatype Verdict = Arrives(given: Payload) | Refuses(reason: string)

  /** Where a run can be interrupted while it works on one record. */
  datatype Weather =
    | Clear
    | DatabaseDown            // before the record is even looked up
    | StoreDown               // while its bytes are fetched or ingested
    | DiesBeforeRecording     // the asset exists, the row does not say so yet
    | DiesBeforeQueueing      // the row says so, the derive job is not queued yet
    | DiesRecordingRefusal    // the file was refused, the row does not say so yet

  datatype Outcome = Moved(asset: AssetId) | Skipped | NotMoved(reason: string)

  datatype Attempt = Done(outcome: Outcome) | Interrupted

  ghost function One(w: World, id: string, payload: Payload, verdict: Verdict, weather: Weather): (World, Attempt) {
    if weather.DatabaseDown? then (w, Interrupted)
    else if IsMigrated(w.ledger, id) then (w, Done(Skipped))
    else
      var noted := if id in w.ledger.rows then w.ledger else Noted(w.ledger, id, [], None);
      if weather.StoreDown? then (w.(ledger := noted), Interrupted)
      else match verdict
        case Refuses(reason) =>
          if weather.DiesRecordingRefusal? then (w.(ledger := noted), Interrupted)
          else (w.(ledger := MarkedFailed(noted, id, reason)), Done(NotMoved(reason)))
        case Arrives(given) =>
          var asset := w.shelf.next;
          var ingested := Ingested(w.shelf, given);
          if weather.DiesBeforeRecording? then (World(noted, ingested), Interrupted)
          else
            var recorded := MarkedMigrated(noted, id, asset);
            var merged := Merged(ingested, asset, payload);
            if weather.DiesBeforeQueueing? then (World(recorded, merged), Interrupted)
            else (World(recorded, Queued(merged, asset)), Done(Moved(asset)))
  }

  method TransferOne(job: Job, library: Library, id: string, payload: Payload, verdict: Verdict, weather: Weather)
    returns (attempt: Attempt)
    modifies job, library
    ensures (World(job.View(), library.View()), attempt)
            == One(old(World(job.View(), library.View())), id, payload, verdict, weather)
  {
    if weather.DatabaseDown? {
      return Interrupted;
    }
    if id in job.rows && job.rows[id].state == Migrated {
      return Done(Skipped);
    }
    if id !in job.rows {
      job.Note(id, [], None);
    }
    if weather.StoreDown? {
      return Interrupted;
    }
    match verdict {
      case Refuses(reason) =>
        if weather.DiesRecordingRefusal? {
          return Interrupted;
        }
        job.MarkFailed(id, reason);
        attempt := Done(NotMoved(reason));
      case Arrives(given) =>
        var asset := library.Ingest(given);
        MergingNothing(library.View(), asset);
        if weather.DiesBeforeRecording? {
          return Interrupted;
        }
        if payload != map[] {
          library.Merge(asset, payload);
        }
        job.MarkMigrated(id, asset);
        if weather.DiesBeforeQueueing? {
          return Interrupted;
        }
        library.Enqueue(asset);
        attempt := Done(Moved(asset));
    }
  }
}
