# dam.rs: migrations and model calls, verified

This project models two parts of dam.rs in Dafny and proves what they promise.

**The import engine.** A migration is a job with a phase, a crosswalk, a dry-run report and one row per source
asset. Four commands work on it: load a crosswalk, dry-run a stream of JSON lines, transfer the same stream into the
library up to a ceiling, roll everything back. A transfer may die on any record and is resumed by running it again.
`Imports.Job` and `Transfer.Library` are the tables, updated in place; the commands in `Damctl` are loops over them,
each proved against a function of the tables' old contents. The laws are then proved of those functions.

**The hosted-model pipeline.** From the bytes a provider sends to a suggestion and a price in micro-cents: one
message decoded synchronously or out of a batch, two vendors' token counts made to mean one thing, answered words
matched to a vocabulary, and fixed-point money arithmetic with explicit `u64`, `i64` and `i128` ranges.

| file | what it holds |
|---|---|
| Wrappers, Text, Json, Dedupe | option and result types, machine integers, trimming and lines, JSON values, keeping first occurrences |
| Pricing | costs, the batch discount, price lookup, overrides |
| Model, Anthropic, OpenAi, Batch, Enrich, Recorded | errors and the transport's decisions, the clients, reading an answer, the scripted transport |
| AnswerLaws, WireLaws, EnrichLaws, Clients | which part of a page becomes which part of an answer, what a request says, what an answer must hold, laws across clients |
| Crosswalk, CrosswalkLaws, MappingLaws, LossLaws, Report | mapping a record, what a mapping guarantees, what each rule writes, says and refuses, what it loses without saying so, the dry-run report |
| Imports, Transfer, Damctl | the job's tables and phase machine, moving one record, the commands |
| StreamLaws, DryRunLaws | what names a record, what a dry run counts and notes |
| TransferLaws, ImportLaws, ResumeLaws, HistoryLaws, ReviewLaws, RollbackLaws | order, counts and convergence, accounting and delivery of one run, of all resumed runs, every command history, the sign-off, rollback |

What the code consults and this model does not define is a parameter: the JSON reader and writer, lower-casing, date
parsing, field validation, the ingest of one file, the legal holds other people place, and where a run is
interrupted (`Transfer.Weather`). Row states are `Pending`, `Migrated`, `Refused` ("failed") and `Undone`
("rolled_back").

## Where the code and its documentation part

Each of these is a theorem below: the property as documented, the exact condition under which the code has it.

- A fail-on-miss table "must stop the asset arriving". The dry run reports the refusal; the transfer moves the record
  anyway. Over whole migrations what is refused stays out exactly for the crosswalks no rule of which can refuse a
  record that names a file (`ReviewLaws.RefusalHoldsIff`).
- "What arrives is what the report said would". Records the validator rejects arrive too; a record whose file is
  missing does not, and neither does a second record of one id. Of a job that had moved nothing, what is moved and
  what is idle in that way make up the stream, so the number moved is the number promised exactly when as many were
  idle as were refused or invalid (`ReviewLaws.ReportIsHonouredIff`).
- A run "cannot skip its own review". The phase machine never does (`Imports.ReviewIsNeverSkipped`), but a crosswalk
  reloaded after the dry run is used unreviewed: what arrives is what the last one loaded makes of it
  (`ReviewLaws.TransferUsesLastLoaded`).
- "Losing quietly is the one thing forbidden". A field that carries something nobody decided against is lost without a
  word exactly when every rule that reads it, of those the record was put through, loses it: a constant, which ignores
  its source; a rule whose target another writes after it; one that writes nothing; or a table that drops items of an
  array. A record that is not refused names a field no rule reads; one that is refused names only the field that
  refused it, and loses whatever it had not come to (`LossLaws.FieldIsLostQuietlyIff`). Crosswalks that avoid all this
  and can refuse nothing lose nothing quietly (`LossLaws.CarefulLosesNothingQuietly`); one that avoids it but can
  refuse loses, of a refused record, exactly the other fields that no earlier rule reads
  (`LossLaws.RefusalLosesTheRest`).
- "Nothing already migrated is moved twice" holds in every weather (`ImportLaws.TransferDelivers`), but a run that
  dies between the ingest and the row leaves an asset nothing names, and the resumed run makes another
  (`ImportLaws.TransferAccounted`).
- A rollback "removes every asset this run created". Where nobody deleted any meanwhile it does exactly when no run
  died between an ingest and its row and no asset of the job is held (`RollbackLaws.RollbackIsCompleteIff`); what it
  leaves is counted in `RollbackLaws.RollbackLeavesHeldAndStrays`. What a hold kept is beyond the reach of any later
  command but a deletion of that very asset (`RollbackLaws.HeldAssetIsStranded`).
- A second attempt "needs to know what the first one did", but a dry run of a rolled-back job overwrites what its rows
  remember (`RollbackLaws.UndoneIsRememberedIff`).
- A cost estimate "does not silently double-count" on one provider: cached tokens are never also counted fresh, but
  where a provider reports more cached than prompt tokens it is charged for all of them
  (`OpenAi.OverreportedCacheIsCheaperIff`).
- A suggestion's own tags need not read back as themselves (`Enrich.RereadIffSlugsAreStable`).
- Two decoders of one message differ in the model recorded when a message names none, and in the reason of a refusal
  that is categorised but not explained (`Clients.DecodersAgree`). Polling retries any page that is not JSON, a 401
  or a 200 included (`Clients.PollRule`).

Some laws are consequences rather than failures. The counters may drift: the migrated one only by a rollback
(`RollbackLaws.CountAfterRollbackIff`), the failed one by notes and by what happens to rows that had already failed,
each step of it stated exactly (`Imports.NoteDrifts`, `Imports.OutcomeDrifts`, `Imports.RecountEndsTheDrift`). A
rollback asks the phase machine only after it has removed and marked; no command brings a job to an end with anything
migrated, so a refused rollback has changed nothing (`RollbackLaws.RefusedRollbackChangesNothingIff`).

## Model

| member | source | states |
|---|---|---|
| `TransferLaws.ResumptionConverges` | bins/damctl/src/main.rs:1013-1088 | repeat a transfer in any weather: what has been moved is always the first so many transferable ids in stream order; k calm runs of ceiling c move at least min(m+kc, n), any run at most c, and with no storm exactly min(m+kc, n) |
| `TransferLaws.TransferAdvances` | bins/damctl/src/main.rs:951-1088 | one transfer moves the first `m` transferable ids on to the first `m'`, at most a ceiling further, exactly a ceiling further or all of them in calm weather, and keeps crosswalk and batch size |
| `TransferLaws.LoopMovesInOrder` | bins/damctl/src/main.rs:1017-1075 | from any point of a run, the loop moves the next transferable ids in order, never past the ceiling, and finishes only at the ceiling or the end |
| `TransferLaws.LimitIsKept` | bins/damctl/src/main.rs:1013 | a run moves at most the limit given, none under one below one, and without one at most a batch; in calm weather exactly that or all that were left |
| `TransferLaws.RunCountsItsRecords` | bins/damctl/src/main.rs:1061-1088 | a finished run counts each record it read once: already there before it or by an earlier record, come now, or refused |
| `TransferLaws.FinishedRunRecounts` | bins/damctl/src/main.rs:1077-1079 | a run that finishes leaves both counters agreeing with the rows |
| `TransferLaws.TransferReadsEntries` | bins/damctl/src/main.rs:1017-1036 | the transfer loop reads a stream as the same identified records as the dry run, positional ids and blank lines included; a line that does not parse only cuts it short |
| `TransferLaws.DryRunReadsEntries` | bins/damctl/src/main.rs:860-942 | the dry run judges and notes each of those records once, in order; it succeeds exactly when every line is one, and then stores the folded report and their number |
| `StreamLaws.EntriesSpec` | bins/damctl/src/main.rs:1029-1032 | the entries both loops read are the records of the non-blank lines up to the first that is not one, each under the string it holds in the id field, or else under its place in decimal |
| `StreamLaws.RearrangedEntries` | bins/damctl/src/main.rs:873-876 | where every record holds a string in the id field, lines in another order with others anywhere between are the same entries with others between |
| `StreamLaws.RearrangedStreamMovesNothingTwice` | crates/dam-pipeline/src/transfer.rs:16-20 | so a run resumed over a rearranged, added-to stream moves nothing twice: each record's row names the same, untouched asset |
| `StreamLaws.InsertionKeepsIdIff` | bins/damctl/src/main.rs:873-876 | with a record put in front of the file, exactly the records that hold a string in the id field keep their ids |
| `DryRunLaws.ReportAsksTheValidator` | bins/damctl/src/main.rs:878-917 | would-arrive, would-be-invalid and would-fail are the records not refused that the validator takes, those it does not, and the refused; each rejection is counted under its code over all records, and each loss under its kind |
| `DryRunLaws.RowsSayTheLastMapping` | bins/damctl/src/main.rs:900-925 | after a dry run the row of each id says the warnings of the last record under it, and, unless migrated, failed with its loss exactly when that was refused, else pending |
| `TransferLaws.OneRecord` | crates/dam-pipeline/src/transfer.rs:60-154 | whatever interrupts it, one record changes only its own migrated state, creates at most one asset, and reports what it did |
| `TransferLaws.OneKeeps` | crates/dam-pipeline/src/transfer.rs:16-20 | one record leaves every migrated row and existing asset as it was, and no two rows ever name one asset |
| `ImportLaws.TransferDelivers` | crates/dam-pipeline/src/transfer.rs:60-154 | a transfer in any weather touches nothing already migrated; each record newly moved is the first transferable one of its id, and its asset holds under each key of the mapped payload that value, or nothing for a null, and under every other key what its ingest gave it |
| `ImportLaws.TransferAccounted` | crates/dam-pipeline/src/transfer.rs:106-151 | one asset, one derivation and one count per record recorded, except one stray asset if the run died before recording and one unqueued one if it died before queueing |
| `ResumeLaws.ResumedRunsDeliver` | bins/damctl/src/main.rs:1052-1057 | however often a transfer is resumed, nothing migrated before is touched and every record any of the runs moved is delivered as one run would have |
| `ResumeLaws.ResumedRunsAddUp` | crates/dam-pipeline/src/transfer.rs:19-24 | over all the runs, assets made are rows recorded plus one per run that died before recording, derivations queued are rows recorded less one per run that died before queueing, and the counter is exact |
| `HistoryLaws.CommandIsLawful` | bins/damctl/src/main.rs:804-1139 | every command keeps the invariant, never rewinds the phase or loses the report, and only a confirmed transfer of a reported job migrates anything |
| `HistoryLaws.EveryHistoryIsLawful` | bins/damctl/src/main.rs:804-1139 | over every sequence of commands, holds and deletions: the invariant holds, the phase never goes back, a rolled-back job stays so, nothing is migrated without a stored report |
| `HistoryLaws.EveryHistoryOfANewJob` | bins/damctl/src/main.rs:804-1139 | whatever is commanded of a new job, an asset the library already had keeps its metadata and is deleted only by somebody deleting that asset; a job with anything migrated is in its transfer with a report stored and its counter exact |
| `HistoryLaws.NothingMovesUnreported` | bins/damctl/src/main.rs:967-976 | in any history that ends with something migrated there is a confirmed transfer that ran when the report was already stored and the phase allowed it |
| `HistoryLaws.NotesKeep` | crates/dam-db/src/imports.rs:333-367 | a dry run never un-migrates a row or changes its asset; other rows it names become pending or failed, and rows it does not name stay |
| `ReviewLaws.JudgedIsDelivered` | bins/damctl/src/main.rs:1034-1036 | after a dry run, every record that any number of resumed transfers of the same stream moved arrived under the dry run's id with the payload the dry run judged, over what its ingest gave it |
| `ReviewLaws.EverythingTransferableMoves` | bins/damctl/src/main.rs:1013-1075 | after a dry run, transfers of the stream enough of which were calm have moved exactly the transferable ids, whatever the report said of them |
| `ReviewLaws.ReportIsHonouredIff` | bins/damctl/src/main.rs:1034-1036 | for any stream and a job that had moved nothing, once enough of its transfers were calm, records moved and records idle (file refused, or id already brought) add up to the report's records, and the number moved is the number promised exactly when the idle are as many as the refused and invalid |
| `ReviewLaws.ReportIsHonouredOfDistinctFiles` | bins/damctl/src/main.rs:1034-1036 | with every file taken and every id distinct, exactly when the report refused none and found none invalid |
| `ReviewLaws.RefusalHoldsIff` | crates/dam-core/src/crosswalk.rs:53-55 | with files named by one field, no migration (new job, crosswalk, dry run, confirmed transfer, any stream and weather) moves an id all of whose records are refused, exactly when no rule can refuse a record that names a file |
| `ReviewLaws.RefusedRecordArrives` | bins/damctl/src/main.rs:1034-1050 | for any such rule, a whole history of a new job in which a refused record ends up migrated |
| `ReviewLaws.RefusedStillMoves` | crates/dam-pipeline/src/transfer.rs:87-104 | a record not yet migrated is moved exactly when the ingest takes its file, whatever the mapping said |
| `ReviewLaws.TransferUsesLastLoaded` | bins/damctl/src/main.rs:814-840 | whatever was commanded since a job was reviewed, what its next confirmed transfer moves arrives with the payload the last crosswalk loaded maps it to |
| `ReviewLaws.LastLoadedIsStored` | bins/damctl/src/main.rs:814-840 | short of a rollback a job keeps the last crosswalk loaded, so the reviewed one exactly when nothing different was loaded last |
| `ReviewLaws.ReloadKeepsTheSignOff` | bins/damctl/src/main.rs:823-840 | a reviewed job takes another crosswalk, keeps the report made under the first, and may transfer at once |
| `RollbackLaws.RollbackTakesExactlyItsOwn` | bins/damctl/src/main.rs:1104-1139 | exactly the live, unheld manifest assets become deleted, no other changes, no record is removed, none stays migrated, and a second rollback changes nothing |
| `RollbackLaws.RollbackUndoesRows` | crates/dam-db/src/imports.rs:527-541 | each migrated row comes to say rolled back and name no asset, keeping its warnings and error; every other row is as it was |
| `RollbackLaws.LeftInPlaceIsHeld` | bins/damctl/src/main.rs:1127-1138 | removed and held add up to the manifest, so what is reported as left in place is exactly what a hold kept |
| `RollbackLaws.HeldAssetIsStranded` | crates/dam-db/src/imports.rs:527-541 | of the assets a rollback listed, every later history that does not delete the asset itself leaves exactly those that were held when it ran |
| `RollbackLaws.RollbackLeavesHeldAndStrays` | bins/damctl/src/main.rs:1098-1139 | after any history of a new job, a rollback leaves live, of the assets made since, exactly those held and those no row names; the unnamed ones number one per run that died between an ingest and its row |
| `RollbackLaws.RollbackIsCompleteIff` | bins/damctl/src/main.rs:1098-1103 | where nobody deleted any, a rollback removes every asset made since the job began exactly when no run died so and none is held |
| `RollbackLaws.CountAfterRollbackIff` | crates/dam-db/src/imports.rs:390-394 | after a rollback the migrated counter agrees with the rows exactly when there was nothing to undo |
| `RollbackLaws.RefusedRollbackChangesNothingIff` | bins/damctl/src/main.rs:1104-1126 | a refused rollback has changed nothing exactly when nothing was migrated, and so for every job a history of commands leaves |
| `RollbackLaws.UndoneIsRememberedIff` | crates/dam-db/src/imports.rs:21-22 | after a dry run of a rolled-back job a row still says rolled back exactly when the stream does not bring its id |
| `Imports.ReviewIsNeverSkipped` | crates/dam-db/src/imports.rs:106-134 | every phase history that reaches a phase which moves assets passed through review and then a dry run, and has not failed since |
| `Imports.PhasesGoForward` | crates/dam-db/src/imports.rs:106-134 | a phase only moves forward, but for the batch loop and the way back from a failure; terminal phases are never left |
| `Imports.MovesAreThese` | crates/dam-db/src/imports.rs:106-134 | exactly which moves are allowed |
| `Imports.EveryPhaseIsReached` | crates/dam-db/src/imports.rs:106-134 | every phase can be come to |
| `Imports.NewJobIsEmpty` | crates/dam-db/src/imports.rs:207-231 | a new job is at discovery with nothing in it, its batch size the one asked for, within one and ten thousand |
| `Imports.NoteKeeps` | crates/dam-db/src/imports.rs:333-367 | noting a record never un-migrates it or changes its asset and touches no other row or column; an unmigrated one takes the state, warnings and error noted |
| `Imports.ArrivalIsRecordedOnce` | crates/dam-db/src/imports.rs:390-419 | an arrival migrates a known row, names its asset, clears its error and keeps the counter in step with the rows; recorded twice it is recorded once |
| `Imports.RefusalIsRecorded` | crates/dam-db/src/imports.rs:421-445 | a refusal marks a known, unmigrated row and no other; the failed counter stays in step exactly when the row was not already refused |
| `Imports.NoteDrifts` | crates/dam-db/src/imports.rs:333-367 | a note takes the failed counter from the rows by exactly whether the unmigrated row had failed less whether it fails now |
| `Imports.OutcomeDrifts` | crates/dam-db/src/imports.rs:390-445 | an arrival and a refusal each put the failed counter one ahead exactly when the row had already failed |
| `Imports.RecountEndsTheDrift` | crates/dam-db/src/imports.rs:487-541 | a rollback leaves that difference as it was and a recount ends it |
| `Imports.Job.Recount` | crates/dam-db/src/imports.rs:487-507 | makes the counters the number of rows in each state |
| `Imports.Job.MarkRolledBack` | crates/dam-db/src/imports.rs:527-541 | undoes exactly the migrated rows, clears their assets, answers how many |
| `Imports.Job.Advance` | crates/dam-db/src/imports.rs:283-315 | moves the phase when it may, otherwise refuses and changes nothing |
| `Imports.Job.SetCrosswalk` | crates/dam-db/src/imports.rs:248-281 | stores the mapping in any phase but a terminal one |
| `TransferLaws.RecordedMove` | crates/dam-pipeline/src/transfer.rs:111-150 | a move that is recorded makes one row migrated, with the new asset and no error, the asset holding the payload over what the ingest gave, and queues that asset unless the run died first; no other row or asset changes |
| `TransferLaws.UnrecordedMove` | crates/dam-pipeline/src/transfer.rs:83-110 | any other end of a record leaves every migrated row and asset alone and adds at most the asset as ingested |
| `TransferLaws.RefusedMove` | crates/dam-pipeline/src/transfer.rs:171-193 | a file refused for good marks its row failed with that reason and changes nothing else |
| `TransferLaws.StoppedMove` | crates/dam-pipeline/src/transfer.rs:156-184 | a run stopped before a record's fate is known leaves its row as it was, or pending with no trouble where there was none |
| `Transfer.Patch` | crates/dam-db/src/metadata.rs:66-76 | the loop of a merge leaves under each key of the payload its value, or nothing for a null, and every other key alone |
| `Damctl.LoadCrosswalk` | bins/damctl/src/main.rs:804-840 | stores a readable mapping and moves the job on only from discovery |
| `Damctl.RunDry` | bins/damctl/src/main.rs:842-949 | the dry-run loop leaves the tables as its specification says, of which `DryRunLaws` and `StreamLaws` say what that is |
| `Damctl.RunTransfer` | bins/damctl/src/main.rs:951-1088 | the transfer loop leaves the tables as its specification says, under any ceiling and weather, and recounts only if it finished |
| `Damctl.CreatedAssets` | crates/dam-db/src/imports.rs:509-525 | lists the live assets of migrated rows, one entry per such row |
| `Damctl.Rollback` | bins/damctl/src/main.rs:1098-1139 | carries out a confirmed rollback, counts what it removed, listed and marked, and is refused exactly in a terminal phase |
| `CrosswalkLaws.PayloadIsTheLastWrite` | crates/dam-core/src/crosswalk.rs:155-212 | each field of a mapped record, refused or not, holds what the last rule aimed at it wrote, of the rules before the refusal, and there are no others; ignoring the id field changes no payload and is idempotent |
| `CrosswalkLaws.RefusalCutsShort` | crates/dam-core/src/crosswalk.rs:200-211 | a refusal only cuts the mapping short: payload and warnings are those of the rules before it, and it is the first refusing rule's |
| `MappingLaws.PayloadHoldsIff` | crates/dam-core/src/crosswalk.rs:155-363 | a field of any record's payload holds a value exactly when some rule before any refusal aimed at it makes that value, as its transform is to, of a field that carries something, and no later such rule puts another |
| `MappingLaws.RefusedIff` | crates/dam-core/src/crosswalk.rs:306-357 | a record is refused exactly when a fail-on-miss table at a writable field meets a value, or an item, it has no entry for; the refusal names the first such rule and the text |
| `MappingLaws.WarnedIff` | crates/dam-core/src/crosswalk.rs:158-206 | a record's warnings are exactly what the rules before any refusal are to say: unknown or read-only target, too many values, unread date, unlisted word, each with its text and number |
| `MappingLaws.EntryArrives` | crates/dam-core/src/crosswalk.rs:341-345 | a word with an entry arrives as its entry, in an array where the field takes several |
| `MappingLaws.DateArrives` | crates/dam-core/src/crosswalk.rs:293-304 | a date arrives as the library reads it |
| `MappingLaws.SplitCuts` | crates/dam-core/src/crosswalk.rs:255-291 | a split gives pieces that join back to the text, cut at every separator as it first comes |
| `MappingLaws.CutsAreSplit` | crates/dam-core/src/crosswalk.rs:255-291 | and those describe no other pieces |
| `MappingLaws.JoinSplitRoundTrip` | crates/dam-core/src/crosswalk.rs:255-291 | splitting a join of trimmed words, none of which holds the separator or runs into it, gives the words back |
| `MappingLaws.NothingIffEmptyLeaves` | crates/dam-core/src/crosswalk.rs:395-405 | a value carries nothing exactly when all there is in it, however deep in arrays, is nulls and space |
| `CrosswalkLaws.RefusesIffARuleCan` | crates/dam-core/src/crosswalk.rs:306-357 | a crosswalk refuses some record exactly when a fail-on-miss table is aimed at a field that exists and may be written |
| `LossLaws.FieldIsLostQuietlyIff` | crates/dam-core/src/crosswalk.rs:25-29 | of any record, a field that carries something is named nowhere and not whole in the payload exactly when every rule it was put through that reads the field is a constant, is overwritten, writes nothing or drops items, and, unrefused, some rule reads it or, refused, another field was the cause |
| `LossLaws.FieldIsNamedIff` | crates/dam-core/src/crosswalk.rs:155-231 | a field is named in a warning exactly when a rule reading it warns, of those before any refusal, or the record is not refused and the field goes nowhere |
| `LossLaws.ItemIsLostIff` | crates/dam-core/src/crosswalk.rs:306-341 | a rule writes the same without an item of an array that carries something exactly when its table drops what it has no entry for and has none for that item |
| `LossLaws.CarefulLosesNothingQuietly` | crates/dam-core/src/crosswalk.rs:25-29 | where every field that is read is read by a rule that copies, joins, dates or translates without dropping, into a target of its own: no unrefused record loses anything quietly, a refused one only what no such rule came to, and none does if no rule can refuse |
| `LossLaws.RefusalLosesTheRest` | crates/dam-core/src/crosswalk.rs:207-212 | where every rule is of that kind, a refused record loses quietly exactly the fields, but for the one that refused it, that no rule before the refusal reads |
| `LossLaws.TwoColumnsOneField` | crates/dam-core/src/crosswalk.rs:155-212 | two columns copied to one field: the first, where it differs, is lost without a word |
| `CrosswalkLaws.ItemsTranslate` | crates/dam-core/src/crosswalk.rs:309-328 | translating an array keeps every item in number but the missing ones of a drop-on-miss table, and fails exactly on a missing one of a fail-on-miss table |
| `CrosswalkLaws.UnmappedIsNamedOnce` | crates/dam-core/src/crosswalk.rs:207-228 | of a record that is not refused, a field that carries something, is not ignored and is mentioned by no rule is reported exactly once, any other never; of a refused one none is |
| `CrosswalkLaws.IdIsNeverUnmapped` | bins/damctl/src/main.rs:851-856 | the id column is never reported as unmapped, and ignoring it changes nothing else that is said or mapped |
| `Crosswalk.MapRecord` | crates/dam-core/src/crosswalk.rs:155-231 | the two loops of the mapping compute its specification, of which the laws of `MappingLaws` say what it writes, says and refuses |
| `Report.ReportAddsUp` | crates/dam-core/src/crosswalk.rs:404-510 | one verdict per record; coverage counts exactly the records that carried a field and those whose target was filled; each code's count is its number of warnings |
| `Report.CodesAreKinds` | crates/dam-core/src/crosswalk.rs:140-153 | the codes a report counts under are the kinds of loss, only the two ways of having too many values sharing one |
| `Report.Accrue` | crates/dam-core/src/crosswalk.rs:450-497 | the loops fold one record's coverage, warnings and verdict into the report |
| `Clients.DecodersAgree` | crates/dam-ai/src/batch.rs:299-318 | for every message and schema ask both decoders decline the same refusals and give the same suggestion but for the model; equal exactly when the message names its model or the client is "unknown"; same reason exactly when explained or not categorised |
| `Clients.UnstructuredAsksDiffer` | crates/dam-ai/src/batch.rs:353 | without a schema the synchronous answer is never readable while the batched one is read as if there were one |
| `Clients.RetryRule` | crates/dam-ai/src/model.rs:247-270 | whichever client posted and whatever the body, an error is transient exactly on 429 or outside 2xx and 4xx, a non-2xx is always an error, and the wait survives exactly on 429 |
| `Clients.FailuresAreTheSame` | crates/dam-ai/src/model.rs:247-250 | outside 2xx every client ends with the very same error |
| `Clients.PollRule` | crates/dam-ai/src/batch.rs:213-222 | polling follows the retry rule exactly when the answer is JSON or its status was worth retrying, and never carries a wait |
| `AnswerLaws.VendorsAreBilledAlike` | crates/dam-ai/src/openai_compatible.rs:214-224 | one call reported by either vendor in its own terms and accepted by its client is billed as one usage |
| `AnswerLaws.AcceptedUsageIsNormalised` | crates/dam-ai/src/openai_compatible.rs:199-224 | of every accepted answer fresh and cached input make up the larger of prompt and cached as reported, cached and output are the reported counts |
| `AnswerLaws.ChatIsReceived` | crates/dam-ai/src/openai_compatible.rs:170-213 | a chat completion becomes, in order: the written refusal, the server's, an error for missing content or wrong JSON, or that content, read as JSON if asked, under the model it names |
| `AnswerLaws.MessageIsReceived` | crates/dam-ai/src/anthropic.rs:154-217 | a message becomes, in order: a refusal with its explanation or else category, an error, or its text, that text as JSON if asked, its model or the configured one, and its four counts each in its place |
| `AnswerLaws.TextIsInOrder` | crates/dam-ai/src/anthropic.rs:175-180 | a message's text is that of its text blocks in order with nothing between, and nothing of any other |
| `WireLaws.FailureIsTold` | crates/dam-ai/src/model.rs:247-270 | outside 2xx every client ends with the status's error: unauthorised, throttled with the wait, or the status with the provider's words, or the page itself when it is not JSON |
| `WireLaws.RefusedResultsAreTold` | crates/dam-ai/src/batch.rs:256-262 | a refused results file is told in the same way, without a wait |
| `WireLaws.SuccessMustBeJson` | crates/dam-ai/src/http.rs:125-135 | a successful page that is not JSON is unreadable to every client that posted |
| `OpenAi.NormalisationConserves` | crates/dam-ai/src/openai_compatible.rs:215-218 | fresh and cached input add up to the larger of prompt and cached, and to the prompt exactly when the cached part is a part of it |
| `OpenAi.CachingNeverCostsMore` | crates/dam-ai/src/openai_compatible.rs:215-218 | at any published price the normalised usage costs at most the whole prompt fresh |
| `OpenAi.OverreportedCacheIsCheaperIff` | crates/dam-ai/src/openai_compatible.rs:215-218 | with more cached than prompt tokens, at any price, the call costs at most its prompt fresh exactly when the cached tokens do at their rate, or the fresh price is out of range |
| `Anthropic.MessageParams` | crates/dam-ai/src/anthropic.rs:91-131 | the loop and the optional schema build the specified request |
| `Anthropic.ParamsDetermineTheAsk` | crates/dam-ai/src/anthropic.rs:91-95 | two requests with one body asked one model one question |
| `WireLaws.RequestSaysTheAsk` | crates/dam-ai/src/anthropic.rs:91-131 | a request, read as a message is, names the model, bounds the answer, says the instructions as the cached prefix, the question's words after it in order, and its images where they stand |
| `WireLaws.RequestAsksForTheSchema` | crates/dam-ai/src/anthropic.rs:91-131 | it asks for the effort by name and for an answer in the schema, if there is one |
| `WireLaws.PrefixIsTheInstructions` | crates/dam-ai/src/anthropic.rs:118-127 | two questions share their cached prefix exactly when they share their instructions |
| `WireLaws.QuestionsOfOneBrief` | crates/dam-ai/src/enrich.rs:203-224 | nothing about one asset is in its question but its image and its name, so those of one brief share their prefix and what they ask for |
| `Batch.BodyDeterminesTheItems` | crates/dam-ai/src/batch.rs:161-175 | a submission carries every item in order under its own id, so two with one body are one |
| `Batch.Submit` | crates/dam-ai/src/batch.rs:177-211 | an empty or oversized batch is refused with nothing sent; any other is posted exactly once |
| `WireLaws.SizeIsAcceptedIff` | crates/dam-ai/src/batch.rs:177-188 | a submission is accepted exactly when it has between one and a hundred thousand requests |
| `WireLaws.RequestsCarryTheirIds` | crates/dam-ai/src/batch.rs:161-175 | each request carries its item's id under the key its result is claimed by, and asks what asking now would |
| `WireLaws.BatchIdIsRead` | crates/dam-ai/src/batch.rs:204-211 | a submission is known by the id its answer carries, and without one is unreadable |
| `WireLaws.StatusIsRead` | crates/dam-ai/src/batch.rs:213-248 | a page about a batch is read under its id, ended or cancelling exactly when it says so, at work whatever else it says, with each count as reported |
| `Batch.Results` | crates/dam-ai/src/batch.rs:251-278 | the line loop computes its specification, failing at the first line it cannot read |
| `Batch.EveryLineOrNone` | crates/dam-ai/src/batch.rs:251-254 | results succeed exactly when every non-blank line can be read, and then hold one result for each, in order |
| `Batch.LineRoundTrip` | crates/dam-ai/src/batch.rs:281-336 | every outcome survives being written as a result object |
| `WireLaws.LineIsReadIff` | crates/dam-ai/src/batch.rs:281-336 | a line is read exactly when it has an id and a known kind, or none, and a success its message; one that says no kind is a failure |
| `WireLaws.FailureSays` | crates/dam-ai/src/batch.rs:320-327 | a failed request's words are those of the error inside its error, or of its error, or none |
| `WireLaws.FaultyLineIsNamed` | crates/dam-ai/src/batch.rs:264-276 | the line named as not JSON is the first at fault, counted from one with the blank ones |
| `Batch.ResultsRoundTrip` | crates/dam-ai/src/batch.rs:264-278 | a file written one object to a line, blank lines anywhere, reads back as exactly those outcomes under their own ids |
| `Text.EndingsDoNotMatter` | crates/dam-ai/src/batch.rs:265 | whichever way each line of a file is ended, and the last not at all, the same lines are read |
| `Enrich.Read` | crates/dam-ai/src/enrich.rs:226-266 | the matching loop computes the specified suggestion, of which the next two say what that is |
| `EnrichLaws.AnswerIsRead` | crates/dam-ai/src/enrich.rs:231-266 | an object with the four keys, or the four in an array, is read part by part: alt text and description trimmed each into its own place, the tags and unknown words of exactly its words, the confidence clamped, model and usage as they were |
| `EnrichLaws.ReadFailsIff` | crates/dam-ai/src/enrich.rs:231-237 | reading fails exactly when nothing is structured or one of the four is missing or of another type, and says which |
| `EnrichLaws.SchemaAsksForWhatIsRead` | crates/dam-ai/src/enrich.rs:123-141 | the schema a question carries is satisfied exactly by the objects of those four keys that the reader takes |
| `EnrichLaws.ResolveIff` | crates/dam-ai/src/enrich.rs:143-162 | a word names the first term a wording of which is, lower-cased, the trimmed word lower-cased, and none when it is blank or there is none |
| `Enrich.Clamp01` | crates/dam-ai/src/enrich.rs:182-184 | a confidence is stored between nought and one, unchanged when it already was |
| `Enrich.AnswerIsPartitioned` | crates/dam-ai/src/enrich.rs:239-255 | every answered word is blank, a tag or an unknown word; the lists share nothing, repeat nothing and follow first mention; tags are vocabulary slugs, unknown words resolve to nothing |
| `Enrich.OfferedSlugResolves` | crates/dam-ai/src/enrich.rs:112-121 | every trimmed slug offered resolves, to its own term when no earlier term is spelled like it |
| `Enrich.RereadIffSlugsAreStable` | crates/dam-ai/src/enrich.rs:148-162 | reading a suggestion's own tags again changes nothing, for every answer, exactly when each term that one of its own wordings names has a slug read back as itself, which is a finite check of the vocabulary |
| `Enrich.RereadingKnowsEveryTag` | crates/dam-ai/src/enrich.rs:239-255 | where slugs are trimmed words, re-reading a suggestion's tags makes no unknown word of any, shadowed or not |
| `Enrich.DistinctSlugsAreStable` | crates/dam-ai/src/enrich.rs:148-162 | trimmed slugs not spelled like anything earlier are stable |
| `Enrich.ShadowedSlugIsMisread` | crates/dam-ai/src/enrich.rs:148-162 | a slug that is an earlier term's synonym is read back as that term |
| `Recorded.Transport.PostJson` | crates/dam-ai/src/testing.rs:122-163 | call number k gets the script's entry k, the last one for ever after, and is remembered whatever comes back |
| `Recorded.Transport.GetText` | crates/dam-ai/src/testing.rs:165-179 | the same for a GET, counted in the same sequence |
| `WireLaws.ScriptedReplyIsDelivered` | crates/dam-ai/src/testing.rs:144-179 | each scripted reply arrives as the page it stands for, a throttling one as a 429 with its wait, a broken one as something to retry, a text as no answer to a POST |
| `Model.RetryHintRoundTrip` | crates/dam-ai/src/http.rs:111-118 | any delay in decimal seconds, padded or not, is read as that number |
| `Text.ParseU64Iff` | crates/dam-ai/src/http.rs:111-118 | exactly the decimal numbers in range, after at most one plus sign, are read, each as itself |
| `Pricing.NoIntermediateOverflow` | crates/dam-ai/src/pricing.rs:195-208 | for every count and every rate of either sign, no product and no partial sum leaves `i128` |
| `Pricing.CostBounds` | crates/dam-ai/src/pricing.rs:199-208 | a cost is less than four micro-cents below the exact price and never above it, and saturates exactly when out of reach |
| `Pricing.CostMonotone` | crates/dam-ai/src/pricing.rs:199-208 | more tokens or dearer rates never cost less |
| `Pricing.PriceOfTheSum` | crates/dam-ai/src/pricing.rs:195-208 | the price of a summed backfill is between the sum of its prices and four micro-cents per further call above it, saturation included |
| `Pricing.SumBoundIsTight` | crates/dam-ai/src/pricing.rs:199-208 | for every size up to a million calls some backfill attains that bound |
| `Pricing.BatchDiscount` | crates/dam-ai/src/pricing.rs:161-172 | twice the batched total exceeds the full one by at most one micro-cent a call and is never below it; it is free only if the calls were |
| `Pricing.BatchAgainstListPrice` | crates/dam-ai/src/pricing.rs:161-172 | twice the batched total is strictly above the exact price less four micro-cents a call and at most one a call above it |
| `Pricing.ForModelIsLongestPrefix` | crates/dam-ai/src/pricing.rs:143-154 | lookup is longest-matching-prefix whatever order the table is walked in; the fallback is charged exactly when nothing matches |
| `Pricing.LongestKeyIsUnique` | crates/dam-ai/src/pricing.rs:148-151 | two longest matching keys are the same key |
| `Pricing.WithOverrides` | crates/dam-ai/src/pricing.rs:174-192 | the loop merges the overrides over the built-in table |
| `Pricing.OverridesChangeOnlyTheirOwn` | crates/dam-ai/src/pricing.rs:174-192 | the longest override key prices a name when no default key is longer; every other name keeps its price |
| `Pricing.PublishedPriceShape` | crates/dam-ai/src/pricing.rs:53-67 | a published price is not negative, a cached token costs at most a fresh one and a cache write at least one |
| `Pricing.PublishedPriceIsNearest` | crates/dam-ai/src/pricing.rs:53-67 | each rate is the micro-cent nearest its dollars: as given in each direction, a tenth of the input's for a cached token, five quarters of it for a cache write |
| `Pricing.EstimateIsTheLongestKeys` | crates/dam-ai/src/pricing.rs:143-172 | an estimate is the cost at the longest matching key's price, or the fallback's, and a batched one half of it rounded up; an override charges what it says |
| `Pricing.NoCallIsFree` | crates/dam-ai/src/pricing.rs:94-141 | under the built-in table no model costs more than the fallback and any call with a token costs at least one micro-cent, batched too |

## Left out

- The fleet loops of `migrate` and `backup`, and every other `damctl` command: they count failures over independent
  calls and would only add easy members.
- Ingest, storage, scanning, derivation and the database itself: one file's ingest is a verdict, asset ids are fresh
  numbers, and a statement is atomic. A command whose statement fails half way is modelled only at the points of
  interruption named in `Transfer.Weather`.
- How an ingest comes by the metadata it gives a new asset (embedded values, upload-profile defaults): that metadata
  is part of the verdict on a record, and the payload is merged over it.
- Source checksums, taxonomy mapping, unmapped fields, timestamps, the rollback token and the "skipped" row state,
  which nothing in these paths reads or writes.
- Field validation: the validator is a parameter that answers with its rejections.
- The wording of messages, prompts and log lines: errors and warnings carry what is interpolated into them.
- JSON syntax, dates and Unicode case tables: parameters, of which a few laws are used. The empty text is no document;
  lower-casing neither empties a word nor makes one. For `LossLaws`, JSON text and dates are never blank; for
  `Enrich.RereadIffSlugsAreStable`, lower-casing neither makes nor removes space at a word's ends; for
  `ReviewLaws.RefusalHoldsIff`, every record of strings can be written as a line.
- `LossLaws.ItemIsLostIff`: an array that a split or a date reads is read as one text, so its items are not followed.
- `Pricing.PerMtokDollars`: computed over reals, so the rounding of `f64` arithmetic is not captured; nor is the
  narrowing of a confidence to `f32`.
- `Pricing.CostBounds`: stated for rates that are not negative, as every published price is; a negative total below
  `i64` would be charged as the largest cost.
- `Crosswalk.Apply`: dates and JSON serialisation are parameters; a record's fields come with the order they are
  walked in.
- `Report.ReportAddsUp`: coverage counts a field as landed when its target was filled, as the code does, even if
  another rule filled it.
- Request headers, URLs, the OpenAI-compatible request body and strict mode, base64 images, and HTTP dates in
  `Retry-After`.
