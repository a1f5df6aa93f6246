/** What the signed-off dry run says about the transfer that follows it, and what it does not. */
module ReviewLaws {
  import opened Crosswalk
  import opened CrosswalkLaws
  import opened Damctl
  import opened Dedupe
  import opened HistoryLaws
  import opened Imports
  import opened ImportLaws
  import opened Json
  import opened ResumeLaws
  import opened Report
  import opened Text
  import opened Transfer
  import opened TransferLaws
  import opened Wrappers

  // ---------- what is judged is what is moved ----------

  /** The payload the dry run judged for a record. */
  ghost function JudgedPayload(port: Port, crosswalk: Crosswalk): Record -> Payload {
    (record: Record) => Judge(port, crosswalk)(record).mapped.payload
  }

  /** A dry run and then any number of transfers over the same stream with the same id field, in any weather and
      under any ceilings: each record any of them newly moved arrived under the id the dry run gave it, with the very
      payload the dry run judged for it, laid over what its ingest gave it. */
  lemma {:induction false} JudgedIsDelivered(port: Port, w: World, lines: seq<string>, idField: string,
                                             plans: seq<Plan>)
    requires Lawful(w) && DryRunResult(port, w.ledger, lines, idField).1
    requires MayTransfer(DryRunResult(port, w.ledger, lines, idField).0.phase)
    ensures var judged := w.(ledger := DryRunResult(port, w.ledger, lines, idField).0);
            AllDelivered(port.ingest, Entries(port.read, idField, lines, 0),
                         JudgedPayload(port, IgnoringId(w.ledger.crosswalk, idField)),
                         judged, Repeated(port, judged, lines, idField, plans))
  {
    var judged := w.(ledger := DryRunResult(port, w.ledger, lines, idField).0);
    var crosswalk := IgnoringId(w.ledger.crosswalk, idField);
    DryRunKeeps(port, w.ledger, lines, idField);
    DryRunIsLawful(w, port, lines, idField);
    assert Execute(w, DryRunStream(port, lines, idField)) == judged;
    ResumedRunsDeliver(port, judged, lines, idField, plans);
    SamePayloads(port, crosswalk);
    SamePayloadsDeliver(port.ingest, Entries(port.read, idField, lines, 0), Payloads(port, crosswalk),
                        JudgedPayload(port, crosswalk), judged, Repeated(port, judged, lines, idField, plans));
  }

  lemma {:induction false} SamePayloads(port: Port, crosswalk: Crosswalk)
    ensures forall record: Record :: JudgedPayload(port, crosswalk)(record) == Payloads(port, crosswalk)(record)
  {
    forall record: Record
      ensures JudgedPayload(port, crosswalk)(record) == Payloads(port, crosswalk)(record)
    {
      assert Judge(port, crosswalk)(record).mapped == Apply(port.codec, crosswalk, record, port.defs);
    }
  }

  lemma {:induction false} SamePayloadsDeliver(ingest: Ingest, all: seq<Entry>, f: Record -> Payload,
      g: Record -> Payload, before: World, after: World)
    requires forall record: Record :: g(record) == f(record)
    requires AllDelivered(ingest, all, f, before, after)
    ensures AllDelivered(ingest, all, g, before, after)
  {
    forall id
      ensures DeliveredFrom(ingest, all, 0, g, before, after, id)
    {
      assert DeliveredFrom(ingest, all, 0, f, before, after, id);
      if IsMigrated(after.ledger, id) && !IsMigrated(before.ledger, id) {
        var k :| FirstTransferable(ingest, all, 0, id, k)
                 && RecordDelivered(after, id, ingest(all[k].record), f(all[k].record));
        assert g(all[k].record) == f(all[k].record);
        assert RecordDelivered(after, id, ingest(all[k].record), g(all[k].record));
      }
    }
  }

  // ---------- what arrives is not what the report said would ----------

  ghost predicate DistinctIds(entries: seq<Entry>) {
    forall i, j :: 0 <= i < j < |entries| ==> entries[i].id != entries[j].id
  }

  ghost predicate AllTaken(ingest: Ingest, entries: seq<Entry>) {
    forall i :: 0 <= i < |entries| ==> ingest(entries[i].record).Arrives?
  }

  /** An entry that brings nothing: its file is refused, or an earlier entry already brought its id. */
  ghost predicate IsIdle(ingest: Ingest, entries: seq<Entry>, i: nat)
    requires i < |entries|
  {
    ingest(entries[i].record).Refuses?
    || exists j :: 0 <= j < i && entries[j].id == entries[i].id && ingest(entries[j].record).Arrives?
  }

  ghost function IdleBefore(ingest: Ingest, entries: seq<Entry>, n: nat): set<nat>
    requires n <= |entries|
  {
    set i: nat | i < n && IsIdle(ingest, entries, i)
  }

  ghost function Idle(ingest: Ingest, entries: seq<Entry>): nat {
    |IdleBefore(ingest, entries, |entries|)|
  }

  lemma {:induction false} InOrderIff(ingest: Ingest, entries: seq<Entry>, i: nat)
    requires i < |entries|
    ensures entries[i].id in Order(ingest, entries[..i])
            <==> exists j :: 0 <= j < i && entries[j].id == entries[i].id && ingest(entries[j].record).Arrives?
  {
    var ids := Arriving(ingest, entries[..i]);
    var at := DistinctSpec(ids);
    if j :| 0 <= j < i && entries[j].id == entries[i].id && ingest(entries[j].record).Arrives? {
      assert ids[j] == Some(entries[i].id);
    }
  }

  lemma {:induction false} OrderedOrIdle(ingest: Ingest, entries: seq<Entry>, i: nat)
    requires i < |entries|
    ensures |Order(ingest, entries[..i + 1])|
            == |Order(ingest, entries[..i])| + if IsIdle(ingest, entries, i) then 0 else 1
  {
    OrderGrows(ingest, entries, i);
    InOrderIff(ingest, entries, i);
  }

  lemma {:induction false} IdleGrows(ingest: Ingest, entries: seq<Entry>, i: nat)
    requires i < |entries|
    ensures |IdleBefore(ingest, entries, i + 1)|
            == |IdleBefore(ingest, entries, i)| + if IsIdle(ingest, entries, i) then 1 else 0
  {
    var before := IdleBefore(ingest, entries, i);
    assert IdleBefore(ingest, entries, i + 1) == if IsIdle(ingest, entries, i) then before + {i} else before;
  }

  lemma {:induction false} OrderAndIdle(ingest: Ingest, entries: seq<Entry>, n: nat)
    requires n <= |entries|
    ensures |Order(ingest, entries[..n])| + |IdleBefore(ingest, entries, n)| == n
  {
    if n > 0 {
      OrderAndIdle(ingest, entries, n - 1);
      OrderedOrIdle(ingest, entries, n - 1);
      IdleGrows(ingest, entries, n - 1);
    } else {
      assert IdleBefore(ingest, entries, 0) == {};
    }
  }

  /** Every stream splits into entries that bring something, each its own id, and idle ones. */
  lemma {:induction false} EntriesAreOrderedOrIdle(ingest: Ingest, entries: seq<Entry>)
    ensures |Order(ingest, entries)| + Idle(ingest, entries) == |entries|
  {
    OrderAndIdle(ingest, entries, |entries|);
    assert entries[..|entries|] == entries;
  }

  /** What the transfers of a stream move after its dry run, by a job that has moved nothing, once enough of them were
      calm: every transferable id, whatever the report said of its record. */
  lemma {:induction false} EverythingTransferableMoves(port: Port, w: World, lines: seq<string>, idField: string,
                                                       plans: seq<Plan>, c: nat)
    requires Lawful(w) && MigratedIds(w.ledger) == {} && DryRunResult(port, w.ledger, lines, idField).1
    requires MayTransfer(DryRunResult(port, w.ledger, lines, idField).0.phase)
    requires forall plan :: plan in plans ==> CeilingIs(plan, w.ledger.batchSize, c)
    requires CalmCount(plans) * c >= |Entries(port.read, idField, lines, 0)|
    ensures var judged := w.(ledger := DryRunResult(port, w.ledger, lines, idField).0);
            MigratedIds(Repeated(port, judged, lines, idField, plans).ledger)
                == SetOf(Transferable(port, lines, idField))
  {
    var judged := w.(ledger := DryRunResult(port, w.ledger, lines, idField).0);
    var order := Transferable(port, lines, idField);
    DryRunKeeps(port, w.ledger, lines, idField);
    assert order[..0] == [] && SetOf(order[..0]) == {};
    var m := ResumptionConverges(port, judged, lines, idField, plans, c, 0);
    EntriesAreOrderedOrIdle(port.ingest, Entries(port.read, idField, lines, 0));
    assert m == |order| && order[..m] == order;
  }

  /** Transfers are meant to move what their dry run said would arrive. Once enough of them were calm, what they have
      moved and what was idle make up the records, so the number moved is the number promised exactly when as many
      were idle as were refused or invalid. */
  lemma {:induction false} ReportIsHonouredIff(port: Port, w: World, lines: seq<string>, idField: string,
                                               plans: seq<Plan>, c: nat)
    requires Lawful(w) && MigratedIds(w.ledger) == {} && DryRunResult(port, w.ledger, lines, idField).1
    requires MayTransfer(DryRunResult(port, w.ledger, lines, idField).0.phase)
    requires forall plan :: plan in plans ==> CeilingIs(plan, w.ledger.batchSize, c)
    requires CalmCount(plans) * c >= |Entries(port.read, idField, lines, 0)|
    ensures var judged := w.(ledger := DryRunResult(port, w.ledger, lines, idField).0);
            var moved := |MigratedIds(Repeated(port, judged, lines, idField, plans).ledger)|;
            var idle := Idle(port.ingest, Entries(port.read, idField, lines, 0));
            && judged.ledger.report.Some?
            && var report := judged.ledger.report.value;
               && moved + idle == report.records == |Entries(port.read, idField, lines, 0)|
               && (moved == report.wouldArrive <==> report.wouldFail + report.wouldBeInvalid == idle)
  {
    var all := Entries(port.read, idField, lines, 0);
    var crosswalk := IgnoringId(w.ledger.crosswalk, idField);
    EverythingTransferableMoves(port, w, lines, idField, plans, c);
    EntriesAreOrderedOrIdle(port.ingest, all);
    var at := DistinctSpec(Arriving(port.ingest, all));
    SizeOfSet(Order(port.ingest, all));
    DryRunReadsEntries(port, w.ledger, lines, idField);
    VerdictsAddUp(EMPTY, crosswalk, Judgements(Judge(port, crosswalk), all));
  }

  /** In particular, with every file taken and every id distinct, exactly when the report refused none and found none
      invalid. */
  lemma {:induction false} ReportIsHonouredOfDistinctFiles(port: Port, w: World, lines: seq<string>, idField: string,
                                                           plans: seq<Plan>, c: nat)
    requires Lawful(w) && MigratedIds(w.ledger) == {} && DryRunResult(port, w.ledger, lines, idField).1
    requires MayTransfer(DryRunResult(port, w.ledger, lines, idField).0.phase)
    requires forall plan :: plan in plans ==> CeilingIs(plan, w.ledger.batchSize, c)
    requires CalmCount(plans) * c >= |Entries(port.read, idField, lines, 0)|
    requires DistinctIds(Entries(port.read, idField, lines, 0))
    requires AllTaken(port.ingest, Entries(port.read, idField, lines, 0))
    ensures var judged := w.(ledger := DryRunResult(port, w.ledger, lines, idField).0);
            var moved := |MigratedIds(Repeated(port, judged, lines, idField, plans).ledger)|;
            && judged.ledger.report.Some?
            && var report := judged.ledger.report.value;
               && moved == report.records
               && (moved == report.wouldArrive <==> report.wouldFail == 0 && report.wouldBeInvalid == 0)
  {
    var all := Entries(port.read, idField, lines, 0);
    ReportIsHonouredIff(port, w, lines, idField, plans, c);
    assert IdleBefore(port.ingest, all, |all|) == {};
  }

  // ---------- a refusal the transfer does not hear ----------

  /** How a source of files reads a record: it takes a path from one field, refuses a record where that is no string,
      and looks at nothing else; and some path has a file. */
  ghost predicate ReadsFileFrom(ingest: Ingest, field: string) {
    && (forall record: Record :: FileVerdict(ingest, field, record))
    && exists path :: HasFile(ingest, field, path)
  }

  ghost predicate FileVerdict(ingest: Ingest, field: string, record: Record) {
    match AsStr(FieldValue(record, field))
    case None => ingest(record).Refuses?
    case Some(path) => ingest(record) == ingest([Field(field, Str(path))])
  }

  ghost predicate HasFile(ingest: Ingest, field: string, path: string) {
    ingest([Field(field, Str(path))]).Arrives?
  }

  /** Every record whose values are strings can be written as a line. */
  ghost predicate ReadsTexts(read: Reader) {
    forall record: Record :: AllTexts(record) ==> exists line :: ReadsAs(read, line, record)
  }

  ghost predicate AllTexts(record: Record) {
    forall i :: 0 <= i < |record| ==> record[i].value.Str?
  }

  ghost predicate ReadsAs(read: Reader, line: string, record: Record) {
    !IsBlank(line) && read(line) == Some(record)
  }

  /** A whole migration of one stream: a new job, its crosswalk, its dry run, its confirmed transfer. */
  datatype Migration = Migration(
    batchSize: int, shelf: Shelf, lines: seq<string>, idField: string, limit: Option<int>, forecast: Forecast)

  ghost function Loaded(crosswalk: Crosswalk, m: Migration): World {
    Execute(World(NewJob(m.batchSize), m.shelf), LoadFile(Some(crosswalk)))
  }

  ghost function Reviewed(port: Port, crosswalk: Crosswalk, m: Migration): World {
    Execute(Loaded(crosswalk, m), DryRunStream(port, m.lines, m.idField))
  }

  ghost function Migrating(port: Port, crosswalk: Crosswalk, m: Migration): World {
    Execute(Reviewed(port, crosswalk, m),
            TransferStream(port, TransferRequest(m.lines, m.idField, m.limit, true, m.forecast)))
  }

  /** Every record the stream brings under an id is refused by the crosswalk. */
  ghost predicate AllRefused(port: Port, crosswalk: Crosswalk, entries: seq<Entry>, id: string) {
    forall i :: 0 <= i < |entries| && entries[i].id == id
            ==> Apply(port.codec, crosswalk, entries[i].record, port.defs).fatal.Some?
  }

  /** What is refused does not arrive. */
  ghost predicate RefusalStands(port: Port, crosswalk: Crosswalk, m: Migration, id: string) {
    (forall a :: a in m.shelf.assets ==> a < m.shelf.next)
    && AllRefused(port, crosswalk, Entries(port.read, m.idField, m.lines, 0), id)
    ==> id !in MigratedIds(Migrating(port, crosswalk, m).ledger)
  }

  /** A rule whose refusal a transfer may override: it can refuse, and a record it refuses can name a file. It only
      matters whether the rule reads the file field itself; then some file's path must be missing from its table. */
  ghost predicate Unheeded(port: Port, fileField: string, rule: Rule) {
    && CanRefuse(port.defs, rule)
    && (rule.source == fileField ==> exists path :: UnlistedFile(port.ingest, fileField, rule.transform.table, path))
  }

  ghost predicate UnlistedFile(ingest: Ingest, field: string, table: map<string, string>, path: string) {
    HasFile(ingest, field, path) && !IsBlank(path) && Lookup(table, path).None?
  }

  lemma {:induction false} UnheededRecord(port: Port, fileField: string, rule: Rule) returns (record: Record)
    requires ReadsFileFrom(port.ingest, fileField) && Unheeded(port, fileField, rule)
    ensures AllTexts(record) && port.ingest(record).Arrives?
    ensures EffectOf(port.codec, port.defs, record, rule).Stop?
  {
    if rule.source == fileField {
      var path :| UnlistedFile(port.ingest, fileField, rule.transform.table, path);
      record := [Field(fileField, Str(path))];
      WordIsRefused(port.codec, port.defs, rule, record, path);
    } else {
      var path :| HasFile(port.ingest, fileField, path);
      var word := RefusedWord(port.codec, port.defs, rule);
      record := [Field(fileField, Str(path)), Field(rule.source, Str(word))];
      assert record[1..] == [Field(rule.source, Str(word))];
      assert FieldValue(record, rule.source) == Some(Str(word));
      assert FileVerdict(port.ingest, fileField, record);
      WordIsRefused(port.codec, port.defs, rule, record, word);
    }
  }

  /** A record that is refused and names a file was refused by an unheeded rule. */
  lemma {:induction false} RefusedWithAFile(port: Port, crosswalk: Crosswalk, fileField: string, record: Record)
    requires ReadsFileFrom(port.ingest, fileField) && port.ingest(record).Arrives?
    requires Apply(port.codec, crosswalk, record, port.defs).fatal.Some?
    ensures exists rule :: rule in crosswalk.rules && Unheeded(port, fileField, rule)
  {
    var rule := RefusedByARule(port.codec, port.defs, record, crosswalk.rules, NOTHING_MAPPED);
    assert FileVerdict(port.ingest, fileField, record);
    if rule.source == fileField {
      assert UnlistedFile(port.ingest, fileField, rule.transform.table, FieldValue(record, fileField).value.s);
    }
    assert Unheeded(port, fileField, rule);
  }

  lemma {:induction false} LoadedIsLawful(crosswalk: Crosswalk, m: Migration)
    requires forall a :: a in m.shelf.assets ==> a < m.shelf.next
    ensures var w := Loaded(crosswalk, m);
            && Lawful(w) && MigratedIds(w.ledger) == {} && w.ledger.crosswalk == crosswalk
            && w.ledger.phase == CrosswalkReview && w.ledger.batchSize >= 1
  {
    NewJobIsLawful(m.batchSize, m.shelf);
    CommandIsLawful(World(NewJob(m.batchSize), m.shelf), LoadFile(Some(crosswalk)));
    assert MigratedIds(Loaded(crosswalk, m).ledger) == {};
  }

  lemma {:induction false} ReviewedIsLawful(port: Port, crosswalk: Crosswalk, m: Migration)
    requires forall a :: a in m.shelf.assets ==> a < m.shelf.next
    ensures var w := Reviewed(port, crosswalk, m);
            Lawful(w) && MigratedIds(w.ledger) == {} && w.ledger.crosswalk == crosswalk
  {
    var loaded := Loaded(crosswalk, m);
    LoadedIsLawful(crosswalk, m);
    CommandIsLawful(loaded, DryRunStream(port, m.lines, m.idField));
    DryRunKeeps(port, loaded.ledger, m.lines, m.idField);
  }

  lemma {:induction false} ArrivingAgainstARefusal(port: Port, crosswalk: Crosswalk, fileField: string, m: Migration,
                                                   id: string)
    requires ReadsFileFrom(port.ingest, fileField) && !RefusalStands(port, crosswalk, m, id)
    ensures exists rule :: rule in crosswalk.rules && Unheeded(port, fileField, rule)
  {
    var w := Reviewed(port, crosswalk, m);
    var request := TransferRequest(m.lines, m.idField, m.limit, true, m.forecast);
    var all := Entries(port.read, m.idField, m.lines, 0);
    ReviewedIsLawful(port, crosswalk, m);
    var payloadOf := Payloads(port, IgnoringId(crosswalk, m.idField));
    TransferDelivers(port, w, request);
    var after := TransferResult(port, w, request).0;
    assert DeliveredFrom(port.ingest, all, 0, payloadOf, w, after, id);
    assert id !in MigratedIds(w.ledger) && id in MigratedIds(after.ledger);
    var k :| FirstTransferable(port.ingest, all, 0, id, k);
    RefusedWithAFile(port, crosswalk, fileField, all[k].record);
  }

  /** A new job in an empty library, a dry run of one line, and a calm, unlimited transfer of it. */
  function OneLine(line: string): Migration {
    Migration(1, Shelf(map[], 0, []), [line], "", None, (k: nat) => Clear)
  }

  lemma {:induction false} OneLineMigrates(port: Port, crosswalk: Crosswalk, record: Record, line: string)
    requires ReadsAs(port.read, line, record) && port.ingest(record).Arrives?
    ensures IdOf(record, "", 1) in MigratedIds(Migrating(port, crosswalk, OneLine(line)).ledger)
  {
    var m := OneLine(line);
    var loaded := Loaded(crosswalk, m);
    OneLineStream(port, record, line);
    LoadedIsLawful(crosswalk, m);
    OneLineIsReviewed(port, loaded, line, record);
    var plan := Plan(None, m.forecast);
    OnePlan(port, Reviewed(port, crosswalk, m), m.lines, "", plan);
    EverythingTransferableMoves(port, loaded, m.lines, "", [plan], 1);
  }

  lemma {:induction false} OneLineIsReviewed(port: Port, loaded: World, line: string, record: Record)
    requires ReadsAs(port.read, line, record) && loaded.ledger.phase == CrosswalkReview
    ensures var (after, ok) := DryRunResult(port, loaded.ledger, [line], "");
            ok && MayTransfer(after.phase)
  {
    ReadableTail(port.read, [line]);
    DryRunReadsEntries(port, loaded.ledger, [line], "");
    DryRunKeeps(port, loaded.ledger, [line], "");
  }

  lemma {:induction false} OnePlan(port: Port, w: World, lines: seq<string>, idField: string, plan: Plan)
    ensures Repeated(port, w, lines, idField, [plan]) == AfterPlan(port, w, lines, idField, plan)
    ensures CalmCount([plan]) == if Calm(plan.forecast) then 1 else 0
  {
    assert [plan][1..] == [];
  }

  /** A whole history in which a refused record arrives. */
  lemma {:induction false} RefusedRecordArrives(port: Port, crosswalk: Crosswalk, fileField: string, rule: Rule)
    returns (m: Migration, id: string)
    requires ReadsFileFrom(port.ingest, fileField) && ReadsTexts(port.read)
    requires rule in crosswalk.rules && Unheeded(port, fileField, rule)
    ensures !RefusalStands(port, crosswalk, m, id)
  {
    var record := UnheededRecord(port, fileField, rule);
    RefusedIfARuleStops(port.codec, crosswalk, record, port.defs, rule);
    var line :| ReadsAs(port.read, line, record);
    m, id := OneLine(line), IdOf(record, "", 1);
    OneLineStream(port, record, line);
    OneLineMigrates(port, crosswalk, record, line);
    assert AllRefused(port, crosswalk, Entries(port.read, "", [line], 0), id);
  }

  lemma {:induction false} OneLineStream(port: Port, record: Record, line: string)
    requires ReadsAs(port.read, line, record) && port.ingest(record).Arrives?
    ensures var entry := Entry(IdOf(record, "", 1), record);
            && Entries(port.read, "", [line], 0) == [entry] && AllReadable(port.read, [line])
            && Order(port.ingest, [entry]) == [entry.id]
  {
    var entry := Entry(IdOf(record, "", 1), record);
    assert [line][1..] == [];
    DistinctStep(Arriving(port.ingest, [entry]), 0);
    assert Arriving(port.ingest, [entry])[..1] == Arriving(port.ingest, [entry]);
  }

  /** A table that fails on a miss is meant to stop the record from arriving. The dry run reports the refusal, but
      the transfer moves whatever names a file, with what was mapped before the refusal. So in every migration what
      is refused stays out exactly when no rule of the crosswalk can refuse a record that names a file. */
  lemma {:induction false} RefusalHoldsIff(port: Port, crosswalk: Crosswalk, fileField: string)
    requires ReadsFileFrom(port.ingest, fileField) && ReadsTexts(port.read)
    ensures (forall m: Migration, id: string {:induction false} :: RefusalStands(port, crosswalk, m, id))
            <==> !exists rule :: rule in crosswalk.rules && Unheeded(port, fileField, rule)
  {
    if rule :| rule in crosswalk.rules && Unheeded(port, fileField, rule) {
      var m, id := RefusedRecordArrives(port, crosswalk, fileField, rule);
    } else {
      forall m: Migration, id: string
        ensures RefusalStands(port, crosswalk, m, id)
      {
        if !RefusalStands(port, crosswalk, m, id) {
          ArrivingAgainstARefusal(port, crosswalk, fileField, m, id);
        }
      }
    }
  }

  /** Whatever the dry run noted against a record, a calm transfer migrates it exactly when the ingest takes it. */
  lemma {:induction false} RefusedStillMoves(port: Port, crosswalk: Crosswalk, w: World, entry: Entry)
    requires !IsMigrated(w.ledger, entry.id)
    ensures IsMigrated(MoveEntry(port, crosswalk, entry, w, Clear).0.ledger, entry.id)
            <==> port.ingest(entry.record).Arrives?
  {
    var payload, verdict := PayloadOf(port, crosswalk, entry.record), port.ingest(entry.record);
    OneRecord(w, entry.id, payload, verdict, Clear);
    var after := One(w, entry.id, payload, verdict, Clear).0;
    assert IsMigrated(after.ledger, entry.id) <==> entry.id in MigratedIds(after.ledger);
    assert IsMigrated(w.ledger, entry.id) <==> entry.id in MigratedIds(w.ledger);
  }

  // ---------- a crosswalk reloaded after its review ----------

  /** The last crosswalk a history loads. */
  ghost function LastLoaded(commands: seq<Command>): Option<Crosswalk> {
    if commands == [] then None
    else
      var later := LastLoaded(commands[1..]);
      if later.Some? then later
      else if commands[0].LoadFile? then commands[0].file
      else None
  }

  lemma {:induction false} CommandCrosswalk(w: World, command: Command)
    requires Lawful(w) && w.ledger.phase != RolledBack
    ensures Execute(w, command).ledger.crosswalk
            == if command.LoadFile? && command.file.Some? then command.file.value else w.ledger.crosswalk
  {
    match command
    case DryRunStream(port, lines, idField) => DryRunKeeps(port, w.ledger, lines, idField);
    case TransferStream(source, request) =>
      if request.confirm && MayTransfer(w.ledger.phase) {
        TransferKeepsJob(source, w, request);
      }
    case _ =>
  }

  /** Short of rolling it back, a job keeps the last crosswalk loaded. */
  lemma {:induction false} LastLoadedIsStored(w: World, commands: seq<Command>)
    requires Lawful(w) && History(w, commands).ledger.phase != RolledBack
    ensures History(w, commands).ledger.crosswalk == LastLoaded(commands).GetOr(w.ledger.crosswalk)
    ensures History(w, commands).ledger.crosswalk == w.ledger.crosswalk
            <==> LastLoaded(commands).None? || LastLoaded(commands).value == w.ledger.crosswalk
    decreases |commands|
  {
    if commands != [] {
      CommandIsLawful(w, commands[0]);
      var next := Execute(w, commands[0]);
      if w.ledger.phase == RolledBack {
        EveryHistoryIsLawful(w, commands);
      } else {
        CommandCrosswalk(w, commands[0]);
        LastLoadedIsStored(next, commands[1..]);
      }
    }
  }

  /** A run is not meant to skip its own review, but a reviewed crosswalk may be replaced and nothing asks for another
      dry run. Whatever was done to a job since it was reviewed, what the next confirmed transfer moves, with any
      definitions, over any stream and in any weather, arrives with the payload that the last crosswalk loaded maps
      it to, and with the reviewed one's only where none was. */
  lemma {:induction false} TransferUsesLastLoaded(w: World, commands: seq<Command>, port: Port,
                                                  request: TransferRequest)
    requires Lawful(w) && MayTransfer(History(w, commands).ledger.phase) && request.confirm
    ensures var before := History(w, commands);
            var used := LastLoaded(commands).GetOr(w.ledger.crosswalk);
            AllDelivered(port.ingest, Entries(port.read, request.idField, request.lines, 0),
                         Payloads(port, IgnoringId(used, request.idField)),
                         before, Execute(before, TransferStream(port, request)))
  {
    LastLoadedIsStored(w, commands);
    EveryHistoryIsLawful(w, commands);
    TransferDelivers(port, History(w, commands), request);
  }

  /** And it does so without leaving the phase it was signed off in: a reviewed job takes another crosswalk, keeps
      the report made under the first, and may transfer at once. */
  lemma {:induction false} ReloadKeepsTheSignOff(w: World, other: Crosswalk)
    requires Lawful(w) && MayTransfer(w.ledger.phase)
    ensures var after := Execute(w, LoadFile(Some(other)));
            && after.ledger.crosswalk == other && after.ledger.report == w.ledger.report
            && after.ledger.phase == w.ledger.phase && MayTransfer(after.ledger.phase)
  {
  }
}
