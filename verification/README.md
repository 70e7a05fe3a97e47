# Verified model of the indexer's stateful components

Three components of the indexer keep state across batches, and their promises only hold over whole
runs. This Dafny project models them and proves those promises.

* **The Parquet pipeline.** Each table has a buffer that is flushed by size, on poll and on cleanup
  (`ParquetBuffers`). A tracker checks the flushed version ranges for gaps (`VersionTracker`) and
  checkpoints them (`ProcessorStatus`); a later run starts from the checkpoints (`RestartPoints`).
  `Pipeline` is the state machine of the whole protocol, for default runs and for backfills, with
  failures, crashes and restarts as steps, and `PipelineProcess` shows that the stages' methods,
  wired together, take exactly those steps, so that what holds of runs holds of any sequence of calls.
  `CrashSafety`, `UnsafeRestart`, `GapDetection`, `PipelineConservation` and `VersionBounds` hold its
  theorems.
* **Address reputation.** The extractor pairs withdraws with deposits and adds one edge per bridge
  inflow (`EdgePairing`, `Extractor`, `EdgeMeaning`). The storer sorts a batch's edges and folds them into
  `address_evm_sources` (`Rollup`, `Storer`, `SeenOrds`). `RollupHistory`, `TransferSplit`,
  `TransferTotals`, `EdgeCredits`, `BatchIndependence`, `Conservation`, `CountedOnce` and `Replays` say what the rows mean in terms of the history.
* **Version-guarded current tables.** Table items (`CurrentTables`, `TableItemHistory`), the two-sided fungible balance
  row (`FungibleBalances`, `FungibleBatches`) and public keys with a sticky flag (`AccountRestoration`), under any
  batching and order of arrival.

`Prelude` and `Sums` are shared helpers. Methods over classes stand for the code that changes state;
each is proved against a specification function or predicate, and the theorems are about those.

## Where code and documentation differ

The model follows the code.

* A comment at `processor/src/parquet_processors/parquet_processor_status_saver.rs:239` says that a
  table without a checkpoint counts as version 0. The code drops such tables from the minimum, and
  also those whose read fails. `RestartSafeExactly` gives the exact condition under which a restart
  skips nothing. When it is violated the restart passes over some version of some table
  (`UnsafeRestartSkips`), and every row of such a version that is not in the bucket yet is lost by an
  ordinary run (`UnsafeRestartLosesRows`). `RowsCanBeLost` is a run from the empty state that loses one.
* Some checkpoints are saved and never read. The tracker saves under the name of the table's variant
  (`processor/src/parquet_processors/mod.rs:92-93`), and a start reads the names listed at
  `processor/src/config/processor_config.rs:182-240`. That list has no `signatures`,
  no `fungible_asset_to_coin_mappings` and no `collections_v2`
  (`processor/src/parquet_processors/parquet_token_v2/parquet_token_v2_extractor.rs:195-199`), and
  `current_objects` is listed as `objects`
  (`processor/src/processors/objects/v2_objects_models.rs:358`).
  In the model such a table is unread at every restart, and the conditions above say when that loses
  rows. A name that is read but under which nothing is saved never has a row.
* A backfill judges completion and its resume point on the rows it finds, so a table without a row is
  passed over. `BackfillResumesAfterLeast`, `BackfillSafeWhenAllRead` and
  `CompletionIgnoresMissingRows` say exactly when nothing is.
* The comment at `processor/src/processors/address_reputation/address_reputation_extractor.rs:130-132`
  says that a delivered deposit is not counted twice. When the delivery also has a withdraw of the
  same amount, the paired edge is flagged as a bridge edge too and the inflow is counted twice.
  `FundConservedExactly` says exactly when that happens, `DeliveryCountsTwice` is an instance.
* The rollup adds amounts, and a default restart of its processor begins at the saved version itself,
  not after it (`processor/src/processors/processor_status_saver.rs:183-188`, used at
  `processor/src/processors/address_reputation/address_reputation_processor.rs:112-115`), so every such
  restart delivers at least one transaction again (`DefaultRestartRepeats`). The edge insert skips
  what it has seen, the rollup does not. `RepeatsCountExactly` says when the totals still hold each
  transaction once, `DeliveryReplayed` is an instance where they do not.
* The doc comment at `processor/src/processors/address_reputation/address_reputation_storer.rs:280-283`
  describes a plain proportional split, the SQL below it adds a factor for the distance. The two
  agree in every reachable table (`FundedRowsAreDirect`, `TransferCreditsAmount`).
* The migration `processor/src/db/migrations/2026-06-22-000000_address_reputation/up.sql:62-65`
  adds a transfer's share to `evm_fund`; the code adds it to `transfer_fund` and leaves `evm_fund`
  alone.
* Deduplication of public keys keeps the version in its key, the table's conflict key does not. A
  statement may not come back to a row that it has inserted or updated, but it may come back to one
  that its version guard left alone. So a statement with one key triple at two versions fails unless
  all but the newest are older than the stored row (`BatchInsertsExactly`, `TwoVersionsTogether`). A
  used row that arrives after a newer unused one is dropped (`LateUseIsLost`).
* The owner and frozen columns of a balance row are written by both sides and follow the order of
  arrival; `SharedColumnsAgreeExactly` says for which orders they come out the same.

## Assumptions

* Every batch carries every configured table, with a positive measured size, and the first batch of
  a run starts at the version the run asked for. Versions stay below 2^63.
* An upload stores its object or fails and stores nothing. Objects have distinct names. Channels are
  first in, first out.
* Each batch of transactions rises in version. Batches may overlap and repeat; a theorem about the
  rollup counts a transaction as often as it is delivered unless it says otherwise. Amounts are
  non-negative where a theorem says so. Amounts are exact rationals and only the final rounding to nine places is modelled.
* Each restart names the tables whose checkpoints it does not see, because the read fails or the name
  is not read. Nothing is assumed about which they are; the theorems over runs assume the exact
  condition for a safe restart. The starting version never moves back when every restart sees the same
  tables, whichever they are (`StartNeverMovesBack`). Otherwise it can (`FailedReadsMoveBack`), and
  `MovesBackExactly` says when.
* A backfill has a fixed ending version, or none, and does not overwrite its checkpoints.

## Model

| member | source | states |
|---|---|---|
| ParquetBuffers.BatchesAreRegrouped | processor/src/parquet_processors/parquet_utils/parquet_buffer_step.rs:42-62 | over any run of batches and flushes the emitted ranges and objects are the received batches regrouped in order, each range from the start of its first to the end of its last batch, with the total size of the last batch or, after cleanup, of the group; the buffer holds the batches since the last flush |
| ParquetBuffers.GroupsAreFull | processor/src/parquet_processors/parquet_utils/parquet_buffer_step.rs:137-159 | with no poll in between nothing is flushed early: every flushed group keeps within the limit and would have passed it with the batch that came next |
| ParquetBuffers.NoEmptyObjects | processor/src/parquet_processors/parquet_utils/gcs_uploader.rs:144-147 | over any run no empty object is uploaded |
| ParquetBuffers.RowConservation | processor/src/parquet_processors/parquet_utils/parquet_buffer_step.rs:96-166 | uploaded rows followed by buffered rows equal the received rows, in order |
| ParquetBuffers.ParquetBufferStep.UploadBuffer | processor/src/parquet_processors/parquet_utils/gcs_uploader.rs:134-147 | an upload adds one object for one table or nothing; an empty buffer is skipped |
| ParquetBuffers.ParquetBufferStep.UploadBufferAppend | processor/src/parquet_processors/parquet_utils/parquet_buffer_step.rs:110-166 | flush-then-append for one table: a flush exactly when buffer and batch together pass the limit, the outcome, and which failures are possible when |
| ParquetBuffers.ParquetBufferStep.Process | processor/src/parquet_processors/parquet_utils/parquet_buffer_step.rs:179-203 | in any table order: every table has taken in the batch, the bucket holds exactly the flushes, the emitted map names exactly the flushed tables; a failure has a table that caused it |
| ParquetBuffers.ParquetBufferStep.Drain | processor/src/parquet_processors/parquet_utils/parquet_buffer_step.rs:205-279 | poll and cleanup upload every non-empty buffer, emit exactly their ranges and clear the map; no gap error is possible, a panic only with bytes but no metadata |
| VersionTracker.FormatTableNameInjective | processor/src/parquet_processors/parquet_utils/util.rs:135-137 | tables of one processor have distinct checkpoint names |
| VersionTracker.FormatTableNameParts | processor/src/parquet_processors/parquet_utils/util.rs:135-137 | a checkpoint's name is the prefix, a dot and the table's name |
| VersionTracker.ParquetVersionTrackerStep.Process | processor/src/parquet_processors/parquet_utils/parquet_version_tracker_step.rs:76-124 | accepts a map exactly when it continues every tracked table, and then tracks all of it |
| VersionTracker.ParquetVersionTrackerStep.SaveProcessorStatus | processor/src/parquet_processors/parquet_utils/parquet_version_tracker_step.rs:55-63 | in every mode the tables saved before a database error have their guarded upsert in the mode's table, and no other row of either table changes |
| ProcessorStatus.StatusStore.SaveProcessorStatus | processor/src/processors/processor_status_saver.rs:54-158 | the guarded upserts of the two status tables; testing mode stores nothing |
| ProcessorStatus.StatusRowIsMaximum | processor/src/processors/processor_status_saver.rs:74-95 | over all saves in any order the default row is that of the last save with the greatest version |
| ProcessorStatus.BackfillRowIsMaximum | processor/src/processors/processor_status_saver.rs:96-152 | over all saves in any order the backfill row is that of the last save with the greatest version, and is complete exactly when that reached the ending version |
| ProcessorStatus.AliasParts | processor/src/processors/processor_status_saver.rs:102 | a backfill's row is named by the processor, an underscore and the backfill |
| ProcessorStatus.BackfillOnlyAdvances | processor/src/processors/processor_status_saver.rs:118-148 | further saves never lower the version and never undo completion |
| ProcessorStatus.OverwriteUndoesExactly | processor/src/processors/processor_status_saver.rs:139-148 | with overwriting on, over all saves: further saves lower the version exactly when the last of them is lower than the last before, and undo completion exactly when it falls short of the ending version that one had reached |
| ProcessorStatus.OverwriteCanUndoComplete | processor/src/processors/processor_status_saver.rs:139-148 | an instance of that: a save of version 3 after completion at 10 |
| ProcessorStatus.MinVersionIsLeast | processor/src/parquet_processors/parquet_processor_status_saver.rs:269-292 | the minimum is the least readable row, and absent exactly when no row is readable |
| ProcessorStatus.StatusStore.MinProcessedVersion | processor/src/parquet_processors/parquet_processor_status_saver.rs:241-293 | the loop computes that minimum |
| RestartPoints.RestartSafeExactly | processor/src/parquet_processors/parquet_processor_status_saver.rs:73-91 | whichever rows cannot be read, a default-mode restart skips nothing for any table if and only if no row is readable, or a readable one is not beyond the initial version, or every table has a row and a readable one is at most one beyond each |
| RestartPoints.SafeWhenAllRead | processor/src/parquet_processors/parquet_processor_status_saver.rs:274-290 | with all rows read that is: all tables have rows, or none has, or some row is not beyond the initial version |
| RestartPoints.UnreadIsSkippedExactly | processor/src/parquet_processors/parquet_processor_status_saver.rs:283-287 | a table whose row is not read is skipped ahead of if and only if the readable rows all lie beyond the initial version and the version after its own row |
| RestartPoints.FailedReadSkipsAhead | processor/src/parquet_processors/parquet_processor_status_saver.rs:283-287 | an instance of that: rows at 5 and 90, the first one unread |
| RestartPoints.MovesBackExactly | processor/src/parquet_processors/parquet_processor_status_saver.rs:61-194 | for both kinds of job, whichever rows cannot be read: the exact condition under which a start lies before a given version |
| RestartPoints.FailedReadsMoveBack | processor/src/parquet_processors/parquet_processor_status_saver.rs:283-290 | an instance: a start at 5 is followed by one at 0 when no checkpoint can be read |
| RestartPoints.RestartNeverMovesBack | processor/src/parquet_processors/parquet_processor_status_saver.rs:73-91 | rows that stay readable and only grow never give an earlier restart point |
| ProcessorStatus.StatusStore.GetParquetStartingVersion | processor/src/parquet_processors/parquet_processor_status_saver.rs:61-194 | the starting version in all modes, and which backfill rows an overwriting start resets |
| ProcessorStatus.StatusStore.GetStartingVersion | processor/src/processors/processor_status_saver.rs:160-276 | the single-table choice is the Parquet choice for one table, except that a failed read is an error |
| ProcessorStatus.StatusStore.ResetRows | processor/src/parquet_processors/parquet_processor_status_saver.rs:120-170 | exactly the rows found are reset |
| RestartPoints.BackfillResumesAfterLeast | processor/src/parquet_processors/parquet_processor_status_saver.rs:172-184 | an incomplete backfill resumes right after the least readable version; it skips nothing for any configured table if and only if some readable row lies before the initial version or every table has a row and the least readable one is least among them |
| RestartPoints.BackfillSafeWhenAllRead | processor/src/parquet_processors/parquet_processor_status_saver.rs:172-184 | with all rows read: if and only if every table has a row or some row lies before the initial version |
| RestartPoints.MissingTableIsSkipped | processor/src/parquet_processors/parquet_processor_status_saver.rs:172-184 | an instance that skips: one table at 7, the other without a row |
| RestartPoints.CompletionIgnoresMissingRows | processor/src/parquet_processors/parquet_processor_status_saver.rs:108-118 | once the readable rows are complete the run starts at its ending version, and all configured tables are complete if and only if every one has a row and the unread ones are complete |
| RestartPoints.MissingTableIsNeverBackfilled | processor/src/parquet_processors/parquet_processor_status_saver.rs:108-118 | an instance where they are not: the job is over and one table has no row |
| RestartPoints.StartSafeExactly | processor/src/parquet_processors/parquet_processor_status_saver.rs:61-194 | the exact condition for a start that skips nothing, for default runs and backfills alike |
| RestartPoints.BackfillStartsAtPoint | processor/src/parquet_processors/parquet_processor_status_saver.rs:92-185 | the start of a backfill depends only on the versions stored for its readable tables |
| RestartPoints.OverwriteStartsOver | processor/src/parquet_processors/parquet_processor_status_saver.rs:120-170 | an overwriting start begins at the initial version whatever is stored; the readable rows of its tables start over, in progress from 0 with the configured bounds, and all others stay |
| RestartPoints.TestingStartsAsTold | processor/src/parquet_processors/parquet_processor_status_saver.rs:186-193 | in testing mode the stored rows neither matter nor change |
| Pipeline.RowsSplit | processor/src/parquet_processors/parquet_utils/parquet_buffer_step.rs:155-157 | contiguous version ranges join into one range of rows |
| PipelineProcess.Process.Start | processor/src/parquet_processors/parquet_default/parquet_default_processor.rs:99-180 | starting a stopped process is the restart step of the machine that does not see the tables whose names are not listed or not readable, from the version computed on the stored names, in default and backfill mode |
| PipelineProcess.Process.StoredRowsAreUploaded | processor/src/parquet_processors/parquet_processor_status_saver.rs:41-54 | after any sequence of calls whose restarts were safe, every row of every table from the initial version through the checkpoint in the database is in the bucket |
| VersionBounds.CheckpointsInRange | processor/src/processors/processor_status_saver.rs:74-95 | over every run, safe or not, the stored checkpoints hold versions that the casts preserve |
| PipelineProcess.Process.OnBatch | processor/src/parquet_processors/parquet_utils/parquet_buffer_step.rs:179-203 | a call of the buffer stage is a batch step of the machine, with the same outcome |
| PipelineProcess.Process.OnDrain | processor/src/parquet_processors/parquet_utils/parquet_buffer_step.rs:205-279 | a poll or cleanup is a drain step |
| PipelineProcess.Process.OnTrack | processor/src/parquet_processors/parquet_utils/parquet_version_tracker_step.rs:76-124 | a call of the tracker is a track step |
| PipelineProcess.Process.OnSave | processor/src/parquet_processors/parquet_utils/parquet_version_tracker_step.rs:126-150 | a tracker poll or cleanup is a run of single saves, cut short by a crash when the database fails; if it succeeds every tracked table is checkpointed |
| PipelineProcess.SavesAreRun | processor/src/parquet_processors/parquet_processor_status_saver.rs:41-54 | saving several tables is a run of single saves whatever their order |
| PipelineProcess.RestartFrom | processor/src/parquet_processors/parquet_processor_status_saver.rs:61-194 | the version computed from the two status tables is the machine's restart point |
| PipelineConservation.RunConservesRows | processor/src/parquet_processors/parquet_utils/parquet_buffer_step.rs:96-166 | in any run of the machine since the last restart, each table has uploaded and buffered exactly the rows delivered for it, in order |
| PipelineConservation.RunRegroupsBatches | processor/src/parquet_processors/parquet_utils/parquet_buffer_step.rs:205-279 | in any such run the emitted ranges and the uploaded objects are those of consecutive groups of the delivered batches, each range from the start of its first to the end of its last batch, and the buffer's metadata spans exactly the batches since the last flush |
| PipelineConservation.RunFlushesFullGroups | processor/src/parquet_processors/parquet_utils/parquet_buffer_step.rs:137-159 | in a run of the machine without drains every uploaded group keeps within the limit and would have passed it with the batch delivered next |
| CrashSafety.NextKeeps | processor/src/parquet_processors/parquet_utils/parquet_buffer_step.rs:110-279 | every step keeps the invariant: checkpoints, tracked ranges and ranges in flight only claim uploaded rows |
| CrashSafety.CrashSafe | processor/src/parquet_processors/parquet_utils/parquet_version_tracker_step.rs:55-132 | over any run with safe restarts, of a default job or a backfill and whichever checkpoints are unread, every row of every table from the initial version through its checkpoint is in the bucket |
| CrashSafety.StartNeverMovesBack | processor/src/parquet_processors/parquet_processor_status_saver.rs:61-194 | over any run with safe restarts that all see the same tables, whichever those are, the starting version never moves back |
| UnsafeRestart.UnsafeRestartSkips | processor/src/parquet_processors/parquet_processor_status_saver.rs:272-290 | a restart is unsafe if and only if it passes over some version of some table, for lack of a checkpoint or for not reading it |
| UnsafeRestart.UnsafeRestartLosesRows | processor/src/parquet_processors/parquet_processor_status_saver.rs:272-290 | the converse of crash safety, for every pipeline: after an unsafe restart an ordinary run claims the rows passed over that were never uploaded |
| UnsafeRestart.RowsCanBeLost | processor/src/parquet_processors/parquet_processor_status_saver.rs:269-292 | a run from the empty state, with every read succeeding, that reaches an unsafe restart and loses a row |
| GapDetection.GapDetectionExact | processor/src/parquet_processors/parquet_utils/parquet_version_tracker_step.rs:83-116 | wherever flushes, polls, tracking and saves fall, a run ends with a gap error if and only if two consecutive batches were not contiguous, and nothing else stops it |
| GapDetection.BuffersStayBounded | processor/src/parquet_processors/parquet_utils/parquet_buffer_step.rs:137-159 | with batches within the limit, over all runs with crashes and restarts no buffer exceeds it, metadata is present exactly with bytes, and no missing-metadata panic is reached |
| EdgePairing.PairIsGreedy | processor/src/processors/address_reputation/address_reputation_extractor.rs:227-235 | the pairing is valid, uses no deposit twice, and passes over taken deposits only |
| EdgePairing.GreedyIsUnique | processor/src/processors/address_reputation/address_reputation_extractor.rs:227-235 | these two properties determine the pairing |
| EdgePairing.PairIsMaximal | processor/src/processors/address_reputation/address_reputation_extractor.rs:230-235 | no compatible withdraw and deposit are both left over |
| EdgePairing.PairIsAtLeastHalf | processor/src/processors/address_reputation/address_reputation_extractor.rs:227-260 | no valid pairing of the same events has more than twice as many pairs |
| EdgePairing.HalfIsTight | processor/src/processors/address_reputation/address_reputation_extractor.rs:227-235 | the factor two is reached |
| EdgePairing.PairSides | processor/src/processors/address_reputation/address_reputation_extractor.rs:229-235 | the loop with its array of used flags computes the greedy pairing |
| Extractor.AddressReputationExtractor.Classify | processor/src/processors/address_reputation/address_reputation_extractor.rs:121-225 | withdraws, deposits and inflows of a transaction in event order; a registered event that does not parse falls through |
| Extractor.AddressReputationExtractor.PairEdges | processor/src/processors/address_reputation/address_reputation_extractor.rs:227-260 | one edge per pair, with asset fallback and bridge flag |
| Extractor.AddressReputationExtractor.ProcessTxn | processor/src/processors/address_reputation/address_reputation_extractor.rs:121-298 | paired edges followed by one head edge per inflow, assets resolved from the deposits |
| Extractor.AddressReputationExtractor.Process | processor/src/processors/address_reputation/address_reputation_extractor.rs:62-305 | the edges and inflows of a batch, skipped transactions giving none |
| Extractor.InflowAssets | processor/src/processors/address_reputation/address_reputation_extractor.rs:266-296 | each inflow belongs to a bridge event of its transaction and carries the asset of the first matching deposit with a known asset |
| EdgeMeaning.WithdrawsAre | processor/src/processors/address_reputation/address_reputation_extractor.rs:179-224 | the withdraws are exactly the withdraw events, each with its index, store, amount and the store's owner, or the store where the owner is not known |
| EdgeMeaning.DepositsAre | processor/src/processors/address_reputation/address_reputation_extractor.rs:179-224 | so are the deposits |
| EdgeMeaning.SidesInOrder | processor/src/processors/address_reputation/address_reputation_extractor.rs:126-225 | both come in event order |
| EdgeMeaning.InflowsAre | processor/src/processors/address_reputation/address_reputation_extractor.rs:133-177 | the inflows are exactly the parsed bridge events with their fields |
| EdgeMeaning.ResolvedIsFirst | processor/src/processors/address_reputation/address_reputation_extractor.rs:273-284 | an inflow's asset is that of the first deposit event to its recipient with its amount and a known asset, and missing exactly when there is none |
| EdgeMeaning.PairedEdgesJoin | processor/src/processors/address_reputation/address_reputation_extractor.rs:227-260 | every paired edge joins the withdraw event of its index to a deposit event of the same amount and another owner, with the withdraw's asset or else the deposit's, flagged and named by the first bridge event for its recipient and amount |
| EdgeMeaning.EdgeForPair | processor/src/processors/address_reputation/address_reputation_extractor.rs:230-259 | a withdraw has an edge exactly when it is paired |
| EdgeMeaning.HeadAddressIsHead | processor/src/processors/address_reputation/address_reputation_extractor.rs:267-272 | a head edge comes from the module of the first registered bridge of that name, or from a made-up address when there is none |
| EdgeMeaning.HeadEdgeIsBridge | processor/src/processors/address_reputation/address_reputation_extractor.rs:262-296 | after the paired edges comes exactly one edge per bridge event, from the bridge to the recipient with the event's amount and the delivered asset |
| Extractor.EdgeKeysDistinct | processor/src/processors/address_reputation/address_reputation_extractor.rs:229-296 | in a batch with distinct versions no two edges share (version, event index) |
| SeenOrds.SeenOrdIsPacked | processor/src/processors/address_reputation/address_reputation_storer.rs:220-222 | on 64-bit patterns, for all arguments, the shift, mask and or give the arithmetic value that the other lemmas reason about |
| SeenOrds.SeenOrdDecodes | processor/src/processors/address_reputation/address_reputation_storer.rs:217-222 | a packed pair can be read back if and only if version < 2^39 and index < 2^24 |
| SeenOrds.SeenOrdKeepsOrder | processor/src/processors/address_reputation/address_reputation_storer.rs:217-222 | in that range packing is injective and keeps lexicographic order |
| Rollup.EvmSources.UpsertBridgeSeed | processor/src/processors/address_reputation/address_reputation_storer.rs:232-278 | the seed upsert is the table's seed operation |
| Rollup.EvmSources.PropagateEvmSources | processor/src/processors/address_reputation/address_reputation_storer.rs:284-340 | upserting source by source gives the simultaneous transfer operation, even onto the sender itself |
| Rollup.EvmSources.SumFunds | processor/src/processors/address_reputation/address_reputation_storer.rs:293-298 | the sum over a sender's rows, in any order |
| RollupHistory.HopsAreShortestChains | processor/src/processors/address_reputation/address_reputation_storer.rs:292-314 | in every reachable table a row exists if and only if a time-respecting chain of funded same-asset transfers from a seed does, and `hops_min` is the length of the shortest |
| RollupHistory.NoChainIsShorter | processor/src/processors/address_reputation/address_reputation_storer.rs:308-312 | no chain is shorter than the recorded distance |
| RollupHistory.SomeChainIsAsShort | processor/src/processors/address_reputation/address_reputation_storer.rs:302-305 | a chain of the recorded length exists |
| RollupHistory.SeenIsEarliestAndLatest | processor/src/processors/address_reputation/address_reputation_storer.rs:249-250 | the seen columns are the least and greatest order numbers of all operations that wrote the row |
| RollupHistory.SeenDecodes | processor/src/processors/address_reputation/address_reputation_storer.rs:310-311 | in range they decode to the earliest and latest (version, event index) that touched the row |
| RollupHistory.FundIsSeeded | processor/src/processors/address_reputation/address_reputation_model.rs:45-47 | `evm_fund` of a row is the sum of its seeds; transfers never touch it |
| RollupHistory.TotalIsSeeded | processor/src/processors/address_reputation/address_reputation_storer.rs:242-253 | the total at an (address, asset) is the sum of all seeds into it |
| RollupHistory.FundedRowsAreDirect | processor/src/processors/address_reputation/address_reputation_storer.rs:245-251 | in every reachable table a row with positive `evm_fund` has distance 0 |
| TransferSplit.PlainAddsUp | processor/src/processors/address_reputation/address_reputation_storer.rs:280-283 | the documented plain proportions add up to the amount |
| TransferSplit.TransferCreditsAmount | processor/src/processors/address_reputation/address_reputation_storer.rs:292-309 | each source is credited its plain proportion rounded, and the whole differs from the amount by at most half of 10^-9 per funded source |
| TransferSplit.EveryTransferCreditsItsAmount | processor/src/processors/address_reputation/address_reputation_model.rs:48-52 | so it is for every transfer of every run |
| TransferTotals.CreditIsShares | processor/src/processors/address_reputation/address_reputation_storer.rs:308-309 | over every run `transfer_fund` of a row is the sum of the shares that went to it |
| TransferTotals.CreditIsTransfers | processor/src/processors/address_reputation/address_reputation_model.rs:48-52 | over every run the total credit of an (address, asset) is the sum of the amounts of the funded transfers into it, up to half of 10^-9 per funded source of each |
| TransferSplit.RoundIsNearestUnit | processor/src/processors/address_reputation/address_reputation_storer.rs:304 | rounding gives the nearest multiple of 10^-9, and the greater one in the middle |
| TransferTotals.CreditsAreWhole | processor/src/processors/address_reputation/address_reputation_storer.rs:299-309 | in every reachable table `transfer_fund` of every row is a whole multiple of 10^-9 |
| EdgeCredits.BatchesAreEdgeRun | processor/src/processors/address_reputation/address_reputation_storer.rs:150-186 | storing batches runs through the edges of their transactions, each with its effect on the table it meets |
| EdgeCredits.TotalCreditIsPaid | processor/src/processors/address_reputation/address_reputation_storer.rs:176-184 | after any run, with overlaps and repeats, the total credit of an (address, asset) is the sum of the delivered transfer edges into it whose sender had a positive total, up to half of 10^-9 per funded source of each |
| Storer.SortSorts | processor/src/processors/address_reputation/address_reputation_storer.rs:79-83 | the edges are ordered by (version, event index) and are a permutation |
| Storer.SortInBlocks | processor/src/processors/address_reputation/address_reputation_storer.rs:79-83 | edges of later versions are sorted among themselves behind the earlier ones |
| Storer.AddressReputationStorer.ProcessEdge | processor/src/processors/address_reputation/address_reputation_storer.rs:150-186 | column by column: an edge without asset does nothing; a bridge edge seeds the row of the first matching inflow's source at its recipient; any other edge credits every source of its sender at its receiver with the rounded weighted share if the sender has a positive total; no other row changes |
| Storer.AddressReputationStorer.Process | processor/src/processors/address_reputation/address_reputation_storer.rs:75-214 | a batch folds its sorted edges into the table, or nothing when propagation is off |
| Storer.FoldIsTrace | processor/src/processors/address_reputation/address_reputation_storer.rs:150-186 | folding from the empty table is a run to which all the row theorems apply |
| BatchIndependence.CuttingDoesNotMatter | processor/src/processors/address_reputation/address_reputation_storer.rs:79-186 | any two ways of cutting the same deliveries into batches give the same table, repeats included; deliveries rising in version give that of one batch |
| BatchIndependence.BatchesFollowStream | processor/src/processors/address_reputation/address_reputation_storer.rs:150-186 | batch by batch the table is what the delivered transactions give one at a time, each as often as it is delivered |
| Conservation.TotalIsBridged | processor/src/processors/address_reputation/address_reputation_storer.rs:155-175 | after any run, with any overlaps and repeats, the total fund at an (address, asset) is the sum over the delivered transactions of the bridge edges into it with known asset and source |
| Conservation.HeadsOwnSource | processor/src/processors/address_reputation/address_reputation_storer.rs:156-163 | every head edge finds its own inflow's source if and only if look-alike inflows of a transaction share their source |
| Conservation.FundIsHeadsAndRecounts | processor/src/processors/address_reputation/address_reputation_extractor.rs:234-296 | a row's fund is what the head edges of the delivered transactions credit to it plus what flagged paired edges count again |
| Conservation.FundIsInflowsAndRecounts | processor/src/processors/address_reputation/address_reputation_extractor.rs:234-296 | it is the row's own inflows, less those credited elsewhere, plus those of others credited to it, plus recounts; the middle terms vanish when look-alikes share their source |
| Conservation.FundConservedExactly | processor/src/processors/address_reputation/address_reputation_extractor.rs:234-296 | the fund is the sum of the row's own inflows if and only if what is credited elsewhere makes up for what strays in and is recounted; when look-alikes share their source that is if and only if no paired edge recounts a positive amount |
| Conservation.DeliveryCountsTwice | processor/src/processors/address_reputation/address_reputation_extractor.rs:130-132 | a delivery of 5 with a paired withdraw is recorded as 10 |
| CountedOnce.CountedOnceExactly | processor/src/processors/address_reputation/address_reputation_storer.rs:155-175 | for any transaction: every inflow with resolved asset and source is seeded exactly once, into its own row, if and only if look-alikes share their source and no paired edge is a seed |
| RestartPoints.DefaultRestartRepeats | processor/src/processors/processor_status_saver.rs:183-188 | a default restart of a single-table processor begins at the saved version itself |
| Replays.FirstsAreDistinct | processor/src/processors/address_reputation/address_reputation_storer.rs:150-186 | the first deliveries name every delivered transaction once |
| Replays.RepeatsCountExactly | processor/src/processors/address_reputation/address_reputation_storer.rs:242-253 | with repeats the total at an (address, asset) never falls short of the sum over the transactions counted once, and equals it if and only if no repeated one bridges a positive amount there |
| Replays.TwiceIsDouble | processor/src/processors/address_reputation/address_reputation_storer.rs:247-249 | delivering a transaction twice doubles what it adds to a row |
| Replays.DeliveryReplayed | processor/src/processors/address_reputation/address_reputation_storer.rs:247-249 | an instance: a fund of 10 stands at 20 after the replay |
| CurrentTables.ProcessTransactions | processor/src/processors/default/mod.rs:43-177 | one pass yields the log of table-item changes and the map of the last change per key |
| TableItemHistory.TxnChangesAre | processor/src/processors/default/mod.rs:99-134 | the logged changes of a transaction are exactly its table items, deletions included, each with its position |
| TableItemHistory.LogIsItems | processor/src/processors/default/mod.rs:99-168 | a batch logs exactly the table items of its transactions |
| CurrentTables.DefaultStorer.InsertTableItems | processor/src/processors/default/default_storer.rs:202-211 | a log position already present is left alone |
| CurrentTables.DefaultStorer.InsertCurrentTableItems | processor/src/processors/default/default_storer.rs:213-235 | every key whose stored row is not newer gets the new row, every other row stays, in any order |
| CurrentTables.DefaultStorer.Process | processor/src/processors/default/default_storer.rs:202-235 | a batch adds its log and upserts its collapsed rows |
| TableItemHistory.BatchIsLatest | processor/src/processors/default/mod.rs:99-158 | a batch collapses to the latest change among its own versions |
| TableItemHistory.CurrentIsLatest | processor/src/processors/default/default_storer.rs:213-235 | whatever batches overlap, repeat or arrive out of order, the current row is what the last write-set change of the key within the delivered versions wrote, a deletion included |
| TableItemHistory.CurrentMatchesChainExactly | processor/src/processors/default/default_storer.rs:213-235 | the row is what the last change of the whole chain wrote if and only if that change's version was delivered |
| CurrentTables.OrderDoesNotMatter | processor/src/processors/default/mod.rs:160-168 | runs that delivered the same versions end with the same current table |
| TableItemHistory.LogTableHolds | processor/src/processors/default/default_storer.rs:202-211 | the log table holds exactly the table items, deletions included, among the write-set changes of the delivered versions, each at its position |
| CurrentTables.CurrentIsViewOfLog | processor/src/processors/default/mod.rs:99-168 | a key has a current row exactly when the log has a change for it, and the row is the change at the greatest (version, index) |
| FungibleBalances.BalanceStore.InsertV1 | processor/src/processors/fungible_asset/fungible_asset_storer.rs:250-273 | the v1 upsert on one storage id |
| FungibleBalances.BalanceStore.InsertV2 | processor/src/processors/fungible_asset/fungible_asset_storer.rs:275-303 | the v2 upsert, keeping a known v1 asset type |
| FungibleBalances.HalfIsHighestVersion | processor/src/processors/fungible_asset/fungible_asset_storer.rs:163-164 | under any interleaving or replay each half is that of its side's highest-version write, and null exactly when that side never wrote |
| FungibleBalances.HalvesConverge | processor/src/processors/fungible_asset/fungible_asset_storer.rs:250-303 | orders and replays of the same writes leave the same halves |
| FungibleBatches.FromFungibleAssetBalances | processor/src/processors/fungible_asset/fungible_asset_models/v2_fungible_asset_balances.rs:112-135 | the maps hold, for exactly the storage ids a side has, the balance of the last entry of that id and side |
| FungibleBatches.HalvesAreLatest | processor/src/processors/fungible_asset/fungible_asset_models/v2_fungible_asset_balances.rs:112-135 | after any batches, overlapping, repeated or out of order, with the two upserts of each in either order, each half is the last balance of its side at the newest version delivered |
| FungibleBatches.BatchingDoesNotMatter | processor/src/processors/fungible_asset/fungible_asset_storer.rs:138-164 | deliveries of the same versions leave the same halves however they are cut and ordered |
| FungibleBalances.AssetV1StaysKnown | processor/src/processors/fungible_asset/fungible_asset_storer.rs:286-289 | a known v1 asset type never becomes null |
| FungibleBalances.V1WriteMakesAssetKnown | processor/src/processors/fungible_asset/fungible_asset_models/v2_fungible_asset_balances.rs:138-197 | after any v1 write, wherever it fell, the v1 asset type is known |
| FungibleBalances.SharedIsLastInTime | processor/src/processors/fungible_asset/fungible_asset_storer.rs:259-302 | after any history owner and frozen flag are those of the last write that was not older than an earlier write of its own side |
| FungibleBalances.SharedColumnsAgreeExactly | processor/src/processors/fungible_asset/fungible_asset_storer.rs:259-302 | two orders of arrival of the same writes leave the same owner and frozen flag if and only if the same side's newest write comes last in both or the newest writes of the two sides carry the same columns |
| FungibleBalances.SharedColumnsFollowArrival | processor/src/processors/fungible_asset/fungible_asset_storer.rs:259-292 | an instance: of one write of each side the second wins, while the halves come out the same |
| FungibleBalances.V2Columns | processor/src/processors/fungible_asset/fungible_asset_models/v2_fungible_asset_balances.rs:138-197 | after any history the v2 asset type and the primary flag are those of the newest v2 write; before any there is no v2 asset type and the store counts as primary |
| FungibleBalances.AssetV1Column | processor/src/processors/fungible_asset/fungible_asset_storer.rs:261-289 | after any history the v1 asset type is that of the last write in time that carries one, and null exactly when none does |
| AccountRestoration.SortSorts | processor/src/processors/account_restoration/account_restoration_processor_helpers.rs:190-198 | the rows are in the five-column order with used rows first |
| AccountRestoration.KeysAreLexicographic | processor/src/processors/account_restoration/account_restoration_processor_helpers.rs:190-197 | the key columns are compared one after the other: public key, type, auth key, version |
| AccountRestoration.CompareIsByteWise | processor/src/processors/account_restoration/account_restoration_processor_helpers.rs:191-195 | strings are compared at the first place where they differ or one of them ends |
| AccountRestoration.SortAndDedupRepresents | processor/src/processors/account_restoration/account_restoration_processor_helpers.rs:190-208 | one row is left per (public key, type, auth key, version), used exactly when some duplicate was |
| AccountRestoration.AccountRestorationStorer.InsertPublicKeyAuthKeys | processor/src/processors/account_restoration/account_restoration_storer.rs:122-142 | a statement succeeds exactly when every row but the last of a conflict key is older than the stored row; then each row that the guard lets through has its upsert with the sticky flag and nothing else changes |
| AccountRestoration.BatchInsertsExactly | processor/src/processors/account_restoration/account_restoration_storer.rs:127-142 | a deduplicated batch can be inserted as one statement if and only if all but the newest of its versions of each triple are older than the stored row |
| AccountRestoration.TwoVersionsTogether | processor/src/processors/account_restoration/account_restoration_storer.rs:127-142 | an instance: versions 3 and 5 fail on an empty table and go through as a replay once 5 is stored |
| AccountRestoration.FlagExactly | processor/src/processors/account_restoration/account_restoration_storer.rs:131-142 | for any order of arrival the stored version is the greatest, and the flag is set if and only if a used row arrived that was not outdated |
| AccountRestoration.RowIsLastCurrent | processor/src/processors/account_restoration/account_restoration_storer.rs:131-142 | apart from the flag the stored row is the last write that was not outdated on arrival |
| AccountRestoration.FlagIsSticky | processor/src/processors/account_restoration/account_restoration_storer.rs:135-139 | a set flag never reverts |
| AccountRestoration.LateUseIsLost | processor/src/processors/account_restoration/account_restoration_storer.rs:141-142 | a used row that arrives after a newer unused one does not set the flag |
| AccountRestoration.FlagIsDisjunction | processor/src/processors/account_restoration/account_restoration_storer.rs:122-142 | when batches come in version order and each inserts, the flag is the disjunction over all rows ever extracted |

## Left out

- ParquetBuffers.ParquetBufferStep.Process: says nothing about the buffers after a failure, because a failure ends the run and they are lost.
- AccountRestoration.BatchInsertsExactly: speaks of one statement; splitting a large batch into several statements can separate rows that would clash.
- AccountRestoration.SortAndDedupRepresents: the columns outside the key and the flag come from the first row in sort order and are not tracked further.
- Uploads to cloud storage: retries, object names and file writers are foreign I/O; an upload succeeds durably or fails.
- The per-type matches of the Parquet structures: every table is one sequence of rows.
- Backfills that overwrite their checkpoints, in the state machine: their rows are reset and claim nothing.
- Processor wiring, connection pools, channel sizes, chain-id check, table flags and configuration parsing.
- A non-empty `backfill_table`: readers and writers then use different checkpoint names.
- End versions of runs (`get_end_version`, `get_parquet_end_version`): direct reads of the configuration or of the minimum already modelled.
- Event and payload parsing: the extractor takes parsed events; EVM screening and the LayerZero enricher are network code, and a late seed is an ordinary seed operation.
- Inserts of edges and inflows that do nothing on conflict, and the scores read from the rollup.
- The scale of Postgres division: exact rationals up to the final rounding.
- The sort of current rows by primary key before insertion: rows are upserted in arbitrary order, which is proved irrelevant.
- The `auth_key_account_addresses` table: the same guarded upsert as the current table items, keyed by account.
- Other processors (names, objects, stake, tokens, events, gas fees), the REST API and wall-clock columns.
