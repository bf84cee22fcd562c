# Verification of the bike-data pipeline

Dafny 4.11 models of the protocols that keep a medallion data pipeline consistent while jobs crash,
restart and overlap, and of the incremental tables that must equal a from-scratch recomputation.
`dafny verify dfyconfig.toml` checks everything.

## What is modelled

**Rental history, Bronze to Silver.** `RentalTransform` is one range: typing, the six-key
de-duplication, quarantine and the gates; `RentalMeaning` states it on the columns. `BackfillPlan` cuts
the backlog into chunks, finds pending ones and the longest finished prefix. `RentalProtocol` is the whole protocol as a state machine whose
steps are single reads, table commits and document writes, scheduled in any order; `RentalJobs` holds
the same jobs as imperative programs over `IcebergTable` tables and `Watermark` cells and proves each of
them to be its protocol job scheduled alone. `StaleCommit` is a run that breaks the protocol's safety,
from a new deployment, outside its assumptions.

**Rental history, API to Bronze.** `ManifestKey` prints and parses snapshot keys (`KeyMeaning`: on
the calendar and the clock), `RawCollection`
collects the hours concurrently, `CollectionMeaning` says what the result holds and proves,
`SnapshotSelection` picks FINAL or PRELIMINARY per window, `Promotion`
commits the selection in one snapshot, `DailyChain` composes a daily run from watermark to watermark,
and `CollectedRun` starts the same chain at the collections.
`BronzeProtocol` is the state machine of the three jobs that write the Bronze watermark and of those
that produce their evidence; `BronzeJobs` holds those jobs as loops, and `BronzeAlone` proves each of
them to be its protocol job scheduled alone.

**Failure reports.** `FailureReport`: the 31-day window, the backlog, and their agreement with a full
rebuild over all runs.

**Bikeman actions.** `IdentityRebuild`: building a second table and swapping names, with recovery, as a
state machine and as a program; `IdentityAlone` proves them equal when nothing interrupts.

**Gold tables.** `LatestState` (last location, last action), `StationInventory`, `FirstSeen`
(bike master), `UsageFeatures` (shared daily aggregates), `Suspension` (which risky bikes are taken out
of service), `EventLog` (generated collect and deploy events). `SizeBatching` groups files into runs.

## How it is modelled

Dates are integers, a table is a set (or multiset) of rows with a partition function, a nullable column
is an `Option`. A crash is a scheduler action, or a budget of writes after which a job dies. In the
state machines, fields and parameters called `settled`, `frozen`, `approved`, `seen`,
`scans`, `origin` are bookkeeping that no job reads.

Assumptions, each visible in a `requires` clause or a guard of the model:

- Bronze partitions of settled (frozen) days no longer change, and the Bronze watermark only passes
  settled days.
- Rows of one (bike, rent time) share a partition date. Promotion stamps a row with its collection's
  target date (ingestion/jobs/promote_rental_history_raw.py:132), so the claim at
  staging/jobs/transform_silver_rental_history.py:21-26 that this always holds is a premise here;
  `RentalTransform.CutIsSafeIff` shows exactly what depends on it.
- Cutoffs do not go backwards: a current-day commit never lands on a day that has settled, and an
  accepted empty-day approval writes only while no table holds a row of its day (`RentalProtocol.Timely`,
  `BronzeProtocol.Timely`). The approval job itself checks collection manifests only. From its first
  write on, no Bronze load of the approved day is scheduled. The lemmas named `...SafeIff` say exactly
  when such a commit or approval is harmless, and `StaleCommit.StaleCurrentDayBreaksSafety` reaches, from
  a new deployment, a commit that is not.
- Daily cutoffs never fall on 23:59:59, the instant the catch-up DAG files its dates under
  (airflow/dags/bronze_catchup_all_sources_dag.py:161), and completion-marker jobs use that instant;
  `BronzeProtocol.ReservedInstantMatters` shows why.
- A failure report of request day R is dated within [R, R + 30], and its requested date is its partition.
- One active run for the failure-report and Bikeman jobs, as their DAGs configure
  (airflow/dags/silver_failure_report_dag.py:93, airflow/dags/silver_bikeman_action_dag.py:58).
- Bikeman events only arrive: a Bronze day never loses one (`IdentityRebuild.Extends`).
- A rental lies in the partition of its own date, for first sightings and for the serving scan.
- A catch-up batch contains only dates whose collection succeeded; collect targets of a date do not
  change; UUIDv5 is injective on the names it hashes.

Where code and documentation disagree, the model follows the code:

- The decision query counts Criticals twice against the surplus
  (pipeline/risk_model/jobs/build_fact_bike_decision.py:98-102 says otherwise); `Suspension.QueryEqualsLoopIff`
  says when that makes no difference.
- Serving drops a bike's rides on days it was suspended and training does not
  (pipeline/risk_model/jobs/build_bike_features_daily.py:17-23, which calls the training pipeline unaffected), so the
  two feature sets differ as soon as anything is dropped: `UsageFeatures.ServingEqualsTrainingIff`.
- Empty rental days are said to follow the manual approval rule (ingestion/README.md:215-217). The
  catch-up DAG files only dates whose collection succeeded, so an empty date stays approvable there
  (airflow/dags/bronze_catchup_all_sources_dag.py:206-220); but once a marker stands for the day, written
  by the completion job called on its own or left from earlier, its approval is refused
  (ingestion/jobs/confirm_rental_history_empty.py:143-151): `BronzeJobs.FiledDayCannotBeApproved`.
- The quarantine ratio is taken per chunk, so a chunk can be stopped although the range around it passes:
  `RentalTransform.GateDependsOnTheCut`.

## Model

| member | source | states |
|---|---|---|
| RentalProtocol.RunsAreSafe | staging/jobs/transform_silver_rental_history.py:411-505 | in every interleaving of planners, chunk jobs, finalizers, daily runs and empty-day approvals, with separate watermark reads and writes, stale plans and a crash after any step: each day from the start through the Silver watermark, and each day of a range with a COMPLETE marker, holds in both tables exactly what its settled Bronze rows give; and a day once finished stays finished. Timely schedules: T0 commits before the day settles, and an accepted approval writing only while its day is empty; refused and dying approvals are unrestricted |
| RentalProtocol.FreshIsSafe | staging/jobs/transform_silver_rental_history.py:707-790 | the same from a new deployment, for every run |
| RentalProtocol.JobStep | staging/jobs/transform_silver_rental_history.py:707-790 | one step of any job keeps the store invariant, loses no finished day and keeps the job's own local claims |
| RentalProtocol.FinalizerPasses | ingestion/jobs/advance_silver_rental_history_watermark.py:65-96 | passing a covered or complete chunk keeps the finished prefix contiguous |
| RentalProtocol.CurrentDayCommitIsSafeIff | staging/jobs/transform_silver_rental_history.py:491-495 | a current-day (T0) commit, quarantine and then Silver, keeps safety exactly when nobody relies on the day yet or both computed results are still what its Bronze rows give |
| RentalProtocol.CurrentDayQuarantineIsSafeIff | staging/jobs/transform_silver_rental_history.py:491-494 | the same for the quarantine commit alone, the state a crash between the two leaves |
| RentalProtocol.ApprovalIsSafeIff | ingestion/jobs/confirm_rental_history_empty.py:118-176 | moving the watermark over the next day by approval, which reads no table, is safe exactly when both Silver tables hold what the day's Bronze rows give; without a Bronze row, exactly when no table holds a row of the day |
| StaleCommit.StaleCurrentDayBreaksSafety | staging/jobs/transform_silver_rental_history.py:612-666 | from a new deployment, after a schedule that is timely and safe all along, a stalled T0 job's two commits keep safety if and only if the day's rows give nothing for either table |
| StaleCommit.OneRowIsLost | staging/jobs/transform_silver_rental_history.py:612-666 | the concrete case: one clean row, and the run loses it |
| RentalJobs.SilverJobs.ProcessRange | staging/jobs/transform_silver_rental_history.py:411-505 | everything is computed and checked before the first write; on error nothing changed; otherwise both tables hold the range's new rows and nothing else moved |
| RentalJobs.SilverJobs.RunChunk | staging/jobs/transform_silver_rental_history.py:720-733 | a chunk run is the protocol's chunk job scheduled alone: both tables, then the marker; no watermark |
| RentalJobs.SilverJobs.RunFinalizer | ingestion/jobs/advance_silver_rental_history_watermark.py:84-121 | the watermark moves over the longest complete prefix and the gap is reported after the write |
| RentalJobs.SilverJobs.RunDaily | staging/jobs/transform_silver_rental_history.py:735-790 | the whole state of the specified run, whether it succeeds or stops, and the filed document; the next three rows say what that is on the promotion document's own fields |
| RentalJobs.CurrentDayRun | staging/jobs/transform_silver_rental_history.py:612-666 | for a COMPLETE rental promotion of its run date and id, with T0 on and a snapshot of that date, a run that ends well leaves both tables exact on the date and files its document: first matching line, rows the table now holds, the watermark |
| RentalJobs.RunWithoutT0 | staging/jobs/transform_silver_rental_history.py:636-638 | without a trigger or with T0 off no document is filed and no day outside the confirmed range is touched |
| RentalJobs.RefusedRun | staging/jobs/transform_silver_rental_history.py:538-565 | a document that is missing, another one, incomplete or without a line for the run date stops the run: watermark and documents unmoved, no day outside the confirmed range touched |
| RentalJobs.DailyAlone | staging/jobs/transform_silver_rental_history.py:735-790 | the specified daily run, successful or stopped, equals the protocol's daily job scheduled alone |
| RentalJobs.ChunkAlone | staging/jobs/transform_silver_rental_history.py:720-733 | the protocol's chunk job, scheduled alone, ends with both tables written and the range marked |
| RentalJobs.ChunkIsComplete | ingestion/common/silver_rental_history_completion.py:124-128 | the marker it leaves completes its range under version 1 of the contract |
| RentalJobs.CurrentDayIsExact | staging/jobs/transform_silver_rental_history.py:612-666 | a daily run that ends well leaves both tables exact on its current day, also when it wrote the confirmed range too |
| RentalJobs.FinalizerAlone | ingestion/jobs/advance_silver_rental_history_watermark.py:65-96 | the loop over the sorted plan equals the protocol's step-by-step finalizer scheduled alone |
| RentalJobs.PlannerAlone | ingestion/jobs/compute_silver_rental_history_backfill_ranges.py:102-140 | the protocol's planner, scheduled alone, issues the chunks of (Silver watermark, planned end], and nothing for a chunk length below one day |
| RentalJobs.ApprovalAlone | ingestion/jobs/confirm_rental_history_empty.py:128-176 | its approval, scheduled alone, moves both watermarks to a day next to them, or changes nothing |
| RentalJobs.AnythingMayHappen | staging/jobs/transform_silver_rental_history.py:707-790 | at any time a job may die, chunks and finalizers of any plan ever issued may start, days that have not settled may be committed: the main result leaves none of these out |
| RentalTransform.TiesAreIdentical | staging/jobs/transform_silver_rental_history.py:207-236 | the six-key, null-aware order leaves no freedom: two rows of a group that could both be numbered 1 are the same row |
| RentalMeaning.SurvivorIsBest | staging/jobs/transform_silver_rental_history.py:225-236 | which row of a (bike, rent time) survives, in the columns: the earliest return, a missing one last; among equal returns the first rent station, a missing one first; then likewise return station, distance, source file, ingestion time |
| RentalMeaning.EveryRideIsKeptOnce | staging/jobs/transform_silver_rental_history.py:225-236 | every Bronze row with a bike and a readable rent time is answered for by exactly one row, in exactly one of the two tables, with a return no later than its own |
| RentalMeaning.CleanMeans | staging/jobs/transform_silver_rental_history.py:360-396 | a clean row is a Bronze row, column by column, whose return is not before its rent and whose distance is not negative |
| RentalMeaning.QuarantineMeans | staging/jobs/transform_silver_rental_history.py:360-396 | a quarantined row is a Bronze row with at least one of the two faults, and says which |
| RentalMeaning.StoppedIff | staging/jobs/transform_silver_rental_history.py:463-485 | a batch is stopped for an unreadable date, or else because more than the allowed share of its kept rows is in quarantine, and for nothing else |
| RentalTransform.KeepsExactlyOne | staging/jobs/transform_silver_rental_history.py:207-236 | each (bike, rent time) keeps exactly one row |
| RentalTransform.EngineAgrees | staging/jobs/transform_silver_rental_history.py:225-236 | any answer a SQL engine may give for row_number() = 1, however it scans and breaks ties, lists exactly the specified rows, and every such list is an answer |
| RentalTransform.ReadOrderIrrelevant | staging/jobs/transform_silver_rental_history.py:14-33 | any permutation of the input and any re-run give the same rows |
| RentalTransform.AnySplitGivesTheSameRows | staging/jobs/transform_silver_rental_history.py:14-33 | any plan of contiguous chunks over the same days gives the same clean and quarantine rows as one pass |
| RentalTransform.ChunkIndependence | staging/jobs/transform_silver_rental_history.py:14-33 | each day of a range receives what processing that day alone gives |
| RentalTransform.CutIsSafeIff | staging/jobs/transform_silver_rental_history.py:17-26 | the documented premise, made exact: a cut changes nothing if and only if no (bike, rent time) has rows on both sides of it |
| RentalTransform.PassingPartsPassTogether | staging/jobs/transform_silver_rental_history.py:463-478 | the quarantine-ratio gate depends on the chunk only one way: a range whose parts pass also passes |
| RentalTransform.GateDependsOnTheCut | staging/jobs/transform_silver_rental_history.py:463-478 | the converse fails: concrete rows where a chunk is stopped although the range around it passes |
| RentalTransform.QualityGateNeverFires | staging/jobs/transform_silver_rental_history.py:289-319 | the uniqueness check after the transform can never stop a batch |
| BackfillPlan.BuildRanges | ingestion/jobs/compute_silver_rental_history_backfill_ranges.py:70-88 | the cursor loop builds exactly the specified chunks of (Silver, Bronze], capped |
| BackfillPlan.PlanPartitions | ingestion/jobs/compute_silver_rental_history_backfill_ranges.py:70-88 | each day of (Silver, planned end] lies in exactly one planned range, any other day in none |
| BackfillPlan.ReplanReusesChunks | ingestion/jobs/compute_silver_rental_history_backfill_ranges.py:70-99 | re-planning from a chunk's end reproduces the later chunks: all of them when the plan's end is unchanged, and every full-length one when it grew, so their markers are found again |
| BackfillPlan.ReplanIsSuffix | ingestion/jobs/compute_silver_rental_history_backfill_ranges.py:70-99 | with the plan's end unchanged (Bronze unchanged and no cap that moves with the watermark) the new plan is exactly the old plan's suffix |
| BackfillPlan.ReplanReusesIff | ingestion/jobs/compute_silver_rental_history_backfill_ranges.py:70-99 | with a growing Bronze and a moving cap, a later chunk of the old plan is planned again if and only if the plan's end is unchanged or the chunk has full length |
| BackfillPlan.ReplanNeverAddsWork | ingestion/jobs/compute_silver_rental_history_backfill_ranges.py:91-99 | re-planning the rest of a plan never brings back finished chunks |
| BackfillPlan.SelectPendingRanges | ingestion/jobs/compute_silver_rental_history_backfill_ranges.py:91-99 | the loop keeps exactly the ranges without a believed COMPLETE marker, in order |
| BackfillPlan.DoneIff | ingestion/common/silver_rental_history_completion.py:80-121 | a planned range counts as done exactly when the document under its key is the job's own, COMPLETE, and says that very range and contract version |
| BackfillPlan.CompletionIsExact | ingestion/common/silver_rental_history_completion.py:80-128 | writing a marker completes that range under that contract version and no other |
| BackfillPlan.FinishingAChunkMakesProgress | ingestion/jobs/compute_silver_rental_history_backfill_ranges.py:91-99 | the number of incomplete chunks falls by exactly one per finished pending chunk: a termination measure |
| BackfillPlan.ConfirmedRanges | ingestion/jobs/advance_silver_rental_history_watermark.py:65-81 | the loop returns the longest complete prefix of the sorted, uncovered plan and the range that ends it |
| BackfillPlan.FinalizerStopsAtTheGap | ingestion/jobs/advance_silver_rental_history_watermark.py:65-96 | on a planner's plan the watermark stops at the end of the longest complete prefix: right below the gap, or at the plan's end without one |
| BackfillPlan.NothingPendingReachesTheEnd | ingestion/jobs/advance_silver_rental_history_watermark.py:84-121 | when no chunk is pending the finalizer meets no gap and covers the whole plan |
| IcebergTable.Table.Replace | ingestion/common/iceberg_io.py:123-211 | a reversed range or a row outside it is rejected before the table is touched; otherwise the declared range holds exactly the new rows |
| IcebergTable.ReplacedDay | ingestion/common/iceberg_io.py:162-211 | after a range replacement each day inside holds the new rows of that day, also none, and each day outside its old ones |
| Watermark.Cell.Write | ingestion/common/watermark.py:43-56 | a written watermark is read back, whatever format was stored before |
| BronzeProtocol.WatermarkIsNeverAhead | ingestion/jobs/update_rental_history_confirmed_watermark.py:59-103 | with three non-atomic watermark writers and the producers of their evidence in any order, crashes included, every day from the start through the Bronze watermark holds a complete day or had its approval marker written after all checks passed, even after a stale write moved the watermark backwards |
| BronzeProtocol.FreshRunsAreSafe | ingestion/jobs/update_rental_history_confirmed_watermark.py:59-103 | the same from a new deployment, for every run |
| BronzeProtocol.AdvanceStep | ingestion/jobs/advance_completion_watermark.py:36-48 | each step of the marker walk keeps that invariant |
| BronzeProtocol.ApprovalStep | ingestion/jobs/confirm_rental_history_empty.py:118-176 | each step of the manual approval keeps it: evidence and marker read, watermark read, marker written only if there was none, watermark written; a refused approval approves nothing |
| BronzeProtocol.PartialCommitIsSafeIff | ingestion/jobs/promote_rental_history_raw.py:216-240 | a partial-day commit keeps it exactly when the day is above the watermark, below the start, or approved |
| BronzeProtocol.ReservedInstantMatters | ingestion/jobs/write_rental_history_completion_marker.py:31-58 | a daily promotion filed under the catch-up instant would put the watermark on an incomplete day: a concrete run |
| BronzeProtocol.NextConfirmedIsContiguous | ingestion/jobs/update_rental_history_confirmed_watermark.py:45-56 | the daily walk moves only over candidates, stops before the run date and stops at the first missing day |
| BronzeAlone.PromoteAlone | ingestion/jobs/promote_rental_history_raw.py:279-320 | the protocol's daily promotion, scheduled alone: the commit, then the document listing its entries and promoting their days |
| BronzeAlone.CatchUpAlone | ingestion/jobs/promote_rental_history_catchup_batch.py:90-207 | its catch-up batch, scheduled alone, leaves what PromoteBatch leaves |
| BronzeAlone.CompletionAlone | ingestion/jobs/write_rental_history_completion_marker.py:31-79 | its completion job, scheduled alone: nothing for a foreign cutoff, else COMPLETE exactly with a stored promotion |
| BronzeAlone.UpdateAlone | ingestion/jobs/update_rental_history_confirmed_watermark.py:59-103 | its daily update, scheduled alone: nothing without a document, else the longest run of its full days |
| BronzeAlone.ApprovalAlone | ingestion/jobs/confirm_rental_history_empty.py:118-176 | its approval, scheduled alone: accepted on evidence, next to the watermark and without another marker; refused, it changes nothing |
| BronzeAlone.AnyWriterMayStart | ingestion/jobs/update_rental_history_confirmed_watermark.py:59-103 | at any time any of these writers may start from its beginning and any job may die: the main result leaves none of these out |
| BronzeJobs.BronzeMeta.AdvanceCompletion | ingestion/jobs/advance_completion_watermark.py:27-65 | the walk ends at the longest unbroken run of accepted markers up to the target, lists those days, and reports whether the target was missed |
| BronzeJobs.LongestRunIsUnique | ingestion/jobs/advance_completion_watermark.py:36-48 | that specification determines the watermark |
| BronzeJobs.AdvanceAlone | ingestion/jobs/advance_completion_watermark.py:36-48 | the protocol's walk, scheduled alone, meets the same specification as the loop |
| BronzeJobs.BronzeMeta.UpdateConfirmed | ingestion/jobs/update_rental_history_confirmed_watermark.py:45-103 | the daily update's loop and write leave the watermark at the specified run of full days, and nothing without a COMPLETE promotion |
| BronzeJobs.NextConfirmedIsLongestRun | ingestion/jobs/update_rental_history_confirmed_watermark.py:45-56 | which is again the longest run of candidates before the run date |
| BronzeJobs.BronzeMeta.CheckGap | ingestion/jobs/check_bronze_gap.py:30-52 | the loop lists exactly the specified missing days |
| BronzeJobs.MissingExactly | ingestion/jobs/check_bronze_gap.py:42-48 | a day is listed exactly when it is above the watermark, up to the target, and has no accepted marker |
| BronzeJobs.GapReportMatchesWalk | ingestion/jobs/check_bronze_gap.py:42-48 | the gap report and the marker walk agree: the first missing day is where the walk stops |
| BronzeJobs.BronzeMeta.ValidatedEmptyManifest | ingestion/jobs/confirm_rental_history_empty.py:35-96 | the evidence is accepted exactly when the latest manifest proves an empty full day and no earlier one held data |
| BronzeJobs.BronzeMeta.ConfirmEmpty | ingestion/jobs/confirm_rental_history_empty.py:118-192 | an approval succeeds exactly under its checks; on refusal nothing changed; on success marker and both watermarks stand at the day, or a prefix of those writes when it died between them |
| CollectionMeaning.DataBlocksApproval | ingestion/jobs/confirm_rental_history_empty.py:84-94 | a collection that returned any row, listed first or earlier, always blocks the approval of its day |
| CollectionMeaning.EvidenceIff | ingestion/jobs/confirm_rental_history_empty.py:47-82 | a whole day's collection is evidence of an empty day exactly when no hour failed, nothing came back and it was made after the day had ended |
| BronzeJobs.CrashedApprovalRecovers | ingestion/jobs/confirm_rental_history_empty.py:143-176 | wherever an approval crashed, running it again is accepted and ends in the same state |
| BronzeJobs.ApprovalsChain | ingestion/jobs/confirm_rental_history_empty.py:110-115 | after an approval the next one must be of the same day, with the same evidence, or of the next day |
| BronzeJobs.BronzeMeta.WriteCompletionMarker | ingestion/jobs/write_rental_history_completion_marker.py:31-79 | the day is filed COMPLETE exactly when a promotion is stored for its cutoff, COMPLETE_EMPTY exactly when the manifest alone says so, never as an approval; a foreign cutoff files nothing and no other day is touched |
| BronzeJobs.FilingOpensTheWalk | ingestion/jobs/advance_completion_watermark.py:36-48 | what a filed day means: the watermark walk standing before it goes on over it if and only if it was filed COMPLETE |
| BronzeJobs.FiledDayCannotBeApproved | ingestion/jobs/confirm_rental_history_empty.py:143-151 | a filed day can never be approved by hand, whatever its evidence, and filing over an approval takes the approval back |
| BronzeJobs.BronzeMeta.PromoteBatch | ingestion/jobs/promote_rental_history_catchup_batch.py:90-207 | an unreadable payload leaves everything untouched; otherwise one commit and one document per day, exactly |
| Promotion.BronzeTable.Promote | ingestion/jobs/promote_rental_history_raw.py:279-329 | it succeeds exactly when the selection is empty, or valid with distinct days and every payload there, whole and well-formed; nothing is written unless the payloads are; then exactly the planned days are replaced by their payloads' rows, and the document counts them and lists the selection |
| Promotion.BronzeTable.Validate | ingestion/jobs/promote_rental_history_raw.py:139-167 | the entry-by-entry checks accept a document exactly when it is the promotion's own, not empty, and each entry names the payload key its own date, time and type print to, and some rows |
| Promotion.CountCheckFailsOnlyOnSharedDays | ingestion/jobs/promote_rental_history_raw.py:243-252 | counting the committed rows again finds a fault if and only if two snapshots claim one day |
| Promotion.OtherDaysUntouched | ingestion/common/iceberg_io.py:86-120 | a partition overwrite keeps every day outside its list |
| DailyChain.BuildFinalWindows | ingestion/jobs/rental_history_snapshot_policy.py:142-184 | the cursor loop builds the specified backlog and current-day windows |
| DailyChain.WindowsAreInOrder | ingestion/jobs/rental_history_snapshot_policy.py:142-184 | no day has two windows |
| DailyChain.CandidatesAreTheBacklog | ingestion/jobs/update_rental_history_confirmed_watermark.py:33-42 | after a selection without missing entries, the days a promotion confirms are exactly the backlog, never the run date |
| DailyChain.WrittenPromotes | ingestion/jobs/promote_rental_history_raw.py:243-276 | the document the promotion writes lists every selected snapshot with its hours and promotes its day |
| DailyChain.DailyDatesDiffer | ingestion/jobs/promote_rental_history_raw.py:243-252 | no two snapshots of a daily selection share a day, so the count check after the commit never fails |
| DailyChain.DailyRunReaches | ingestion/jobs/rental_history_snapshot_policy.py:142-220 | a selection without missing entries, its document, the promotion of that document and the update reading it compose: the watermark W moves to exactly min(W + m, R - 1), or R - 1 uncapped; a no-op when that is not beyond W |
| SnapshotSelection.SelectSnapshots | ingestion/jobs/rental_history_snapshot_policy.py:381-467 | one right outcome per required window, in window order, and nothing else; the rejection counters are the sum over the windows of their FINAL's failure and of every PRELIMINARY turned away where one was looked for |
| SnapshotSelection.UsableIff | ingestion/jobs/rental_history_snapshot_policy.py:254-324 | a candidate is usable exactly when its key parses, its document agrees with the key, is complete with valid columns, asked for and completed the expected hours, holds rows, and its payload is there |
| SnapshotSelection.ReasonsMean | ingestion/jobs/rental_history_snapshot_policy.py:254-324 | each rejection code stands for exactly its case, in the order of the checks |
| SnapshotSelection.PickFinal | ingestion/jobs/rental_history_snapshot_policy.py:470-508 | the last listed FINAL of this run is returned if it is valid; otherwise the reason, and the rejection counted |
| SnapshotSelection.PickPreliminary | ingestion/jobs/rental_history_snapshot_policy.py:511-547 | the freshest admissible PRELIMINARY, or none when none is admissible; one count per one turned away |
| CollectionMeaning.FreshOnTheClock | ingestion/jobs/rental_history_snapshot_policy.py:327-352 | fresh means: the cutoff's date, before the cutoff, and the cutoff no more than the allowed minutes later, on the clock |
| CollectionMeaning.HourOnTheClock | ingestion/jobs/rental_history_snapshot_policy.py:203-220 | a current-day window asks for the hours before the cutoff's hour |
| CollectionMeaning.FallbackOnTheCalendar | ingestion/jobs/rental_history_snapshot_policy.py:393-447 | a PRELIMINARY may stand in only when switched on, for the cutoff's date and the day before |
| SnapshotSelection.SelectionIgnoresOrder | ingestion/jobs/rental_history_snapshot_policy.py:381-547 | for distinct instants the outcome does not depend on the order of the candidates |
| SnapshotSelection.CountsIgnoreOrder | ingestion/jobs/rental_history_snapshot_policy.py:362-547 | nor do the counters: any listing of the same candidates counts the same |
| SnapshotSelection.OneEntryPerWindow | ingestion/jobs/rental_history_snapshot_policy.py:407-465 | each required window is accounted for once, as selected or as missing |
| SnapshotSelection.SelectedHours | ingestion/jobs/rental_history_snapshot_policy.py:203-220 | whatever is selected was collected completely, for exactly the hours its window expects, for its own date |
| SnapshotSelection.DegradedMeansFallback | ingestion/jobs/rental_history_snapshot_policy.py:95-113 | an entry is a PRELIMINARY exactly when it names a fallback reason |
| SnapshotSelection.LoadCandidates | ingestion/jobs/select_rental_history_snapshot.py:41-58 | exactly the candidates of the manifests listed under the required dates, in listing order, each with its payload's presence |
| SnapshotSelection.OneCandidateEach | ingestion/jobs/select_rental_history_snapshot.py:45-57 | as many candidates as manifest keys listed |
| SnapshotSelection.PayloadIsBesideManifest | ingestion/jobs/select_rental_history_snapshot.py:54-55 | a payload is looked for exactly where the collector writes it |
| ManifestKey.KeyRoundTrip | ingestion/jobs/rental_history_snapshot_policy.py:223-239 | printing a manifest key and parsing it returns the date, the instant, the type and the payload key |
| ManifestKey.ParsedKeyPrintsBack | ingestion/jobs/collect_rental_history_raw.py:133-146 | a parsed KST key is the printed key of what it parses to |
| KeyMeaning.EveryKeyIsPrinted | ingestion/jobs/rental_history_snapshot_policy.py:223-239 | nothing but a printed key parses: a date that exists, a time in some offset below a day, a type of capital letters or underscores, and the payload beside it |
| ManifestKey.KeysDoNotCollide | ingestion/jobs/collect_rental_history_raw.py:133-146 | two snapshots share a key only for the same date, time and type |
| ManifestKey.OrdinalKeepsOrder | ingestion/jobs/rental_history_snapshot_policy.py:234-239 | later dates have larger day numbers, so a day number names one date |
| KeyMeaning.DaysAreCounted | ingestion/jobs/rental_history_snapshot_policy.py:223-239 | day numbers count the calendar: 1 for the first day of year 1 and one more for each following date, leap years included |
| KeyMeaning.SecondsAreCounted | ingestion/jobs/rental_history_snapshot_policy.py:223-251 | every second of a day has its time, and midnight follows the last one |
| KeyMeaning.AnyOffsetIsRead | ingestion/jobs/rental_history_snapshot_policy.py:223-239 | a key's time in any offset is read as that instant; an offset of a day or more, or of sixty minutes or more, is refused |
| KeyMeaning.KindLetters | ingestion/jobs/rental_history_snapshot_policy.py:223-239 | a snapshot type is one or more capital letters or underscores |
| RawCollection.RawStore.CollectSnapshot | ingestion/jobs/collect_rental_history_raw.py:169-300 | for every completion order of the hour threads, payload and manifest equal sequential collection; a complete manifest is reused untouched |
| RawCollection.CompletionOrderIsIrrelevant | ingestion/jobs/collect_rental_history_raw.py:224-238 | sorting the collected hours removes every trace of the order they finished in |
| CollectionMeaning.RowsAreAllPages | ingestion/jobs/collect_rental_history_raw.py:224-250 | the payload is every page of every requested hour, hours in order and pages in order, also those of an hour that failed later |
| CollectionMeaning.FlattenJoins | ingestion/jobs/collect_rental_history_raw.py:224-231 | joining pages keeps each whole and in its place |
| CollectionMeaning.StatusMeans | ingestion/jobs/collect_rental_history_raw.py:245-255 | INCOMPLETE exactly when some hour failed, COMPLETE_EMPTY exactly when none failed and none returned a row, COMPLETE otherwise |
| RawCollection.CollectedIsValidIff | ingestion/jobs/rental_history_snapshot_policy.py:254-324 | a collected manifest passes the selector's validation for its hours exactly when it is COMPLETE and schema-valid |
| RawCollection.ReusedIsValid | ingestion/jobs/collect_rental_history_raw.py:191-207 | a manifest that a retry reuses passes it too |
| RawCollection.CollectedIsReusableIff | ingestion/jobs/collect_rental_history_raw.py:191-207 | what a collection leaves would be reused by a retry exactly when it is COMPLETE and schema-valid |
| RawCollection.WritesKeepBacked | ingestion/jobs/collect_rental_history_raw.py:287-288 | payload and then manifest: every stored manifest, also after a crash between the two and a retry, was built from the rows of its stored payload |
| CollectedRun.FinalHours | ingestion/jobs/collect_rental_history_raw.py:84-130 | every window a FINAL run collects asks for the hours the same run's selector expects |
| CollectedRun.CollectedFinalIsSelected | ingestion/jobs/rental_history_snapshot_policy.py:470-508 | a window the run collected well is selected from that very collection, whatever else is listed |
| CollectedRun.PreliminaryIsAdmissibleIff | ingestion/jobs/rental_history_snapshot_policy.py:511-547 | a PRELIMINARY collected for its own windows can stand in at a later FINAL cutoff exactly when it is fresh enough, COMPLETE and schema-valid |
| CollectedRun.FallbackIsFound | ingestion/jobs/rental_history_snapshot_policy.py:427-465 | where fallback is allowed, such a PRELIMINARY keeps its window from going missing |
| CollectedRun.ListedAreDistinct | ingestion/jobs/select_rental_history_snapshot.py:41-58 | candidates read from what collections stored are distinct snapshots |
| CollectedRun.CollectedRunReaches | ingestion/jobs/collect_rental_history_raw.py:331-367 | when each required window was collected well, whatever else lies in the raw store, none is missing, the promotion of the selection succeeds, and the update moves the watermark W to exactly min(W + m, R - 1), or R - 1 uncapped |
| FailureReport.WatermarkMeansRebuild | staging/jobs/silver_failure_report.py:662-712 | over all runs, with crashes anywhere and Bronze changing under a running job, every day from the start through the watermark equals the full rebuild |
| FailureReport.FreshRunsMeanRebuild | staging/jobs/silver_failure_report.py:662-712 | the same from a first deployment, for every run |
| FailureReport.RangeIsRebuild | staging/jobs/silver_failure_report.py:509-597 | processing [A, B] from request partitions [A-30, B] equals the full rebuild restricted to [A, B] |
| FailureReport.RangesAgreeIff | staging/jobs/silver_failure_report.py:91-93 | exactly what the look-back needs: every range agrees with the full rebuild if and only if every report was delivered by some request no later than its date and at most 30 days before it |
| FailureReport.LookbackIsTight | staging/jobs/silver_failure_report.py:165-170 | one day less of look-back would lose a report |
| FailureReport.RunLeavesNoGap | staging/jobs/silver_failure_report.py:600-712 | after a run the 31-day window equals the full rebuild and, uncapped with Bronze settled to the window, so does every day from the start: none is skipped between the zones |
| FailureReport.CutoffIsNewest | staging/jobs/silver_failure_report.py:623-636 | a pin wins; otherwise the cutoff is the newest of the request partitions and the Bronze watermark |
| FailureReport.WindowHoldsEveryReport | staging/jobs/silver_failure_report.py:662-712 | after a successful unpinned run Silver holds, of the 31 days ending at the newest partition or watermark, exactly the complete reports in Bronze |
| FailureReport.RunQuarantines | staging/jobs/silver_failure_report.py:575-588 | after a run quarantine holds, of the request days read, exactly the complete rows dated beyond the cutoff; other request days keep theirs |
| FailureReport.ComputedMeans | staging/jobs/silver_failure_report.py:509-572 | on the columns: a range writes the distinct complete reports dated in it and not beyond the cutoff, of the request days from 30 days earlier through its end, and quarantines the rows of those days dated beyond the cutoff |
| FailureReport.BacklogInDates | staging/jobs/silver_failure_report.py:646-659 | the backlog runs from the day after the watermark to the earliest of the Bronze watermark, the day below the window and the cap, 70 days by default; none when that lies behind |
| FailureReport.RunMovesMark | staging/jobs/silver_failure_report.py:600-660 | a successful run leaves the watermark below the window, not beyond the Bronze watermark, and at most the cap (70 days by default) further on |
| FailureReport.StoppedIff | staging/jobs/silver_failure_report.py:536-572 | a range is stopped for a missing bike, date or kind among the rows read, or else for more than the allowed share of rows from the future, and for nothing else |
| FailureReport.FailureReportJobs.ProcessRange | staging/jobs/silver_failure_report.py:509-597 | all checks precede the first write; quarantine is replaced by request day, Silver by report day |
| FailureReport.FailureReportJobs.Run | staging/jobs/silver_failure_report.py:662-712 | backlog, watermark and window in this order, to exactly the specified state |
| FailureReport.RunIsARun | staging/jobs/silver_failure_report.py:662-712 | the uninterrupted run, whether or not it has a backlog, is a start of the state machine and then only its own turns |
| FailureReport.AnythingMayHappen | staging/jobs/silver_failure_report.py:662-712 | at any time the run may die, days that are not frozen may be committed, and the Bronze watermark may follow the frozen ones: the main result leaves none of these out |
| IdentityRebuild.CompleteTableSurvives | staging/jobs/silver_bikeman_action.py:300-363 | whatever crashes, whatever renames fail and whatever events arrive meanwhile, a table that holds every earlier event through the watermark, and nothing Bronze does not hold, survives under SILVER or BACKUP; SILVER absent beside BACKUP and REBUILD means REBUILD is such a table; the left-over-backup error is never reached |
| IdentityRebuild.DeploymentLosesNothing | staging/jobs/silver_bikeman_action.py:300-363 | from a first deployment, over the old layout or none, nothing Bronze held then is ever missing |
| IdentityRebuild.SwapStep | staging/jobs/silver_bikeman_action.py:300-363 | each catalog operation of the swap keeps that invariant |
| IdentityAlone.RunAlone | staging/jobs/silver_bikeman_action.py:384-424 | never interrupted, whatever renames raise, the state machine ends in the catalog of the program and succeeds exactly when it does |
| IdentityAlone.EnsureAlone | staging/jobs/silver_bikeman_action.py:340-363 | the same for the part that settles which table is SILVER |
| IdentityRebuild.BikemanCatalog.RebuildIdentityTable | staging/jobs/silver_bikeman_action.py:300-337 | the new table is complete before the first rename; a failing first rename changes no name, a failing second one restores the old name, and when that fails too SILVER is absent beside the old and the complete new table |
| IdentityRebuild.BikemanCatalog.EnsureSilverTable | staging/jobs/silver_bikeman_action.py:340-363 | from every state a crash or a failed rename can leave, one undisturbed call ends with a complete identity-partitioned SILVER unless a day fails its check; after any failure the next call can again |
| IdentityRebuild.BikemanCatalog.RunDays | staging/jobs/silver_bikeman_action.py:366-420 | recent days again, then new ones; in every outcome the table is exactly the old one with the days before the first failing one processed, it stays complete through the watermark, which ends at the last of them |
| IdentityRebuild.LookbackCatchesUpIff | staging/jobs/silver_bikeman_action.py:366-381 | what the look-back corrects: after such a run the table is exact again if and only if no day before the reprocessed ones got a late event |
| LatestState.TableIsLatestOfEverythingRead | pipeline/collection_priority/jobs/build_bike_location.py:108-140 | for any sequence of snapshot dates, each stored time is the maximum over all rows ever read, its value is that of a row attaining it, and every day from the cold start to the day before the stored snapshot date was read |
| LatestState.FirstRunReads | pipeline/collection_priority/jobs/build_bike_location.py:204-260 | a first run dated D with look-back n reads exactly the days D - n to D - 1, or D - n + 1 to D with T0; without a look-back every day up to that end |
| LatestState.LaterRunReads | pipeline/collection_priority/jobs/build_bike_location.py:204-260 | a later run reads from the stored snapshot date through its own end |
| LatestState.NoDayIsSkipped | pipeline/collection_priority/jobs/build_bike_location.py:192-260 | once a first run found anything, after any further runs every day from that bound to the day before the last run's date has been read |
| LatestState.NewTablesRead | pipeline/collection_priority/jobs/build_bike_location.py:91-95 | a new location table reads 30 days, a new action table everything |
| LatestState.MergedIsLatest | pipeline/collection_priority/jobs/build_fact_station_inventory.py:113-142 | merging a delta into the stored state keeps each bike's maximum, NULL times included |
| LatestState.ChangesOnlyForLater | pipeline/collection_priority/jobs/build_bike_location.py:108-140 | a stored bike changes only for a strictly later event, and then to that event; equal times keep what is stored |
| LatestState.DeltaExists | pipeline/collection_priority/jobs/build_bike_location.py:108-118 | whatever a run reads, the row_number query has an answer |
| LatestState.IncrementalEqualsFullScan | pipeline/collection_priority/jobs/build_bike_location.py:182-259 | on an unchanging source the incremental table is what one scan of all days read would give |
| LatestState.TimesDependOnSeenOnly | pipeline/collection_priority/jobs/build_bike_location.py:251-259 | bikes and times depend only on what was read, not on how it was cut into runs |
| LatestState.RerunKeepsTimes | pipeline/collection_priority/jobs/build_bike_location.py:120-140 | running a date again changes no stored time |
| LatestState.LatestTable.Refresh | pipeline/collection_priority/jobs/build_fact_station_inventory.py:308-320 | a run overwrites the table with the specified merge |
| StationInventory.BikesAreConserved | pipeline/collection_priority/jobs/build_fact_station_inventory.py:145-190 | the counts over distinct active stations add up to the bikes whose newest evidence places them at one; each is counted once, a collected bike nowhere |
| StationInventory.CountedWherePlaced | pipeline/collection_priority/jobs/build_fact_station_inventory.py:145-177 | through every NULL case the query counts a bike exactly where its newest evidence places it |
| StationInventory.EveryActiveStationHasARow | pipeline/collection_priority/jobs/build_fact_station_inventory.py:171-190 | an active station without bikes still has its row; a row carries the station's count, and its holds both as they are and as the target |
| StationInventory.StoredLocationsAreKept | pipeline/collection_priority/jobs/build_bike_location.py:108-140 | every reachable location table meets what the inventory query needs of it: no location without a time |
| FirstSeen.AnyChunkingFindsTheMinimum | pipeline/collection_priority/jobs/build_dim_bike.py:77-109 | for any chunking of a frozen Silver, and any crash between two writes, after the last overwrite included, followed by a retry, the table is the global first sighting of every bike, none lost or repeated |
| FirstSeen.NewBikesAreNextDays | pipeline/collection_priority/jobs/build_dim_bike.py:77-109 | a chunk's new bikes are exactly the first sightings between what the table knows and the chunk's end |
| FirstSeen.WritesMoveTheFrontier | pipeline/collection_priority/jobs/build_dim_bike.py:164-210 | overwriting partitions in order moves the known frontier day by day, losing nothing |
| FirstSeen.DimBike.RunJob | pipeline/collection_priority/jobs/build_dim_bike.py:213-248 | the loop over partition values, dying after any number of writes or when the finished table fails its checks, leaves exactly the specified table; the watermark moves only at the end |
| UsageFeatures.AnchorsShareDailySums | pipeline/train_risk_model/features.py:165-216 | joined with any list of anchors, the shared daily aggregate gives each anchor its direct scan of the raw rentals, once per time it is listed |
| UsageFeatures.DistinctAnchorsAreExact | pipeline/train_risk_model/features.py:185-216 | for distinct anchors: trips, sums, half-window split and last date are those of the direct scan |
| UsageFeatures.DirectCounts | pipeline/train_risk_model/features.py:165-216 | the direct scan in counts: trips of the window, instant returns, trips before and from the start of the second half, summed distances and durations |
| UsageFeatures.ScanCounts | pipeline/train_risk_model/features.py:165-216 | the same for any window, with the last day ridden |
| UsageFeatures.PrefilterChangesNothing | pipeline/risk_model/jobs/build_bike_features_daily.py:130-164 | scanning only the window's partitions and listing only its suspensions gives what the whole history without its suspended bike-days gives |
| UsageFeatures.ServedTrips | pipeline/risk_model/jobs/build_bike_features_daily.py:130-164 | serving reads no trip outside the window's days, and drops only unclean ones and those of a day their bike was suspended |
| UsageFeatures.ServingEqualsTrainingIff | pipeline/train_risk_model/features.py:307-345 | serving and training features of a bike agree if and only if it has no cleaned trip inside the window on a day it was suspended |
| UsageFeatures.SuspendedRideIsSkewed | pipeline/risk_model/jobs/build_bike_features_daily.py:17-23 | a concrete ride that training counts and serving does not |
| UsageFeatures.HalvesSplitTheTrips | pipeline/train_risk_model/features.py:193-207 | the halves split the trips, and there is a last day, inside the window, exactly when there is a trip |
| Suspension.SuspendsTheTop | pipeline/risk_model/jobs/build_fact_bike_decision.py:103-140 | at a station with c Criticals, w Warnings and surplus s, every Critical and exactly the next max(0, min(w, max(0, s - c) - c)) bikes of the ranking are suspended |
| Suspension.DecisionInColumns | pipeline/risk_model/jobs/build_fact_bike_decision.py:103-140 | a bike is suspended when its score reaches the critical cut, or the warning cut while its rank and the station's Criticals together fit into what the stock exceeds the target by |
| Suspension.GradesComeInBlocks | pipeline/risk_model/jobs/run_risk_scoring_model.py:75-94 | cut-offs separate the scores: a ranking lists the Criticals, then the Warnings, then the rest |
| Suspension.WithinSurplus | pipeline/risk_model/jobs/build_fact_bike_decision.py:103-140 | the total never exceeds max(c, s), and the suspended are the riskiest up to ties |
| Suspension.QueryWithinLoop | pipeline/risk_model/jobs/build_fact_bike_decision.py:98-102 | the query never suspends a bike the documented budget loop would keep |
| Suspension.QueryEqualsLoopIff | pipeline/risk_model/jobs/build_fact_bike_decision.py:98-102 | it equals that loop exactly when w = 0, s <= c, c = 0 or w <= s - 2c; the comment's claim of equality does not hold in general |
| Suspension.ClosedFormIsNotTheLoop | pipeline/risk_model/jobs/build_fact_bike_decision.py:98-102 | a concrete station where they differ |
| Suspension.UnknownStationsKeepWarnings | pipeline/risk_model/jobs/build_fact_bike_decision.py:105-125 | without a station, its stock or its target only Criticals are suspended |
| EventLog.DeployTargetsAreYesterdaysCollections | pipeline/bikeman_event_generator/jobs/bikeman_db.py:32-43 | the deploy-target query returns exactly the bikes collected the day before, each at its collect station |
| EventLog.LatestIsUnique | pipeline/bikeman_event_generator/jobs/bikeman_db.py:32-43 | the query's order leaves one latest event per bike |
| EventLog.EventOnTheClock | pipeline/bikeman_event_generator/jobs/event_builder.py:28-39 | an event carries what it was built from, happened at 9:00 of its day and was received at 9:15 |
| EventLog.OrderDoesNotMatter | pipeline/bikeman_event_generator/jobs/bikeman_db.py:44-60 | any orders of the same days that run COLLECT(d-1) before DEPLOY(d), with any repetitions, reach the same log up to workers |
| EventLog.LogIsCanonical | pipeline/bikeman_event_generator/jobs/deploy_returned_bikes.py:26-41 | after any steps the log holds exactly the canonical events of the days collected and effectively deployed |
| EventLog.SameDayStepsCommute | pipeline/bikeman_event_generator/jobs/generate_collect_events.py:31-54 | DEPLOY(d) and COLLECT(d) commute, even in the workers they write |
| EventLog.ReplayInsertsNothing | pipeline/bikeman_event_generator/jobs/bikeman_db.py:75-93 | replaying a step at once inserts nothing, whatever workers are drawn |
| EventLog.LaterReplayInsertsNothing | pipeline/bikeman_event_generator/jobs/bikeman_db.py:75-93 | replaying a step at any later time inserts nothing |
| EventLog.NameIsInjective | pipeline/bikeman_event_generator/jobs/event_ids.py:13-14 | distinct events have distinct names to hash, whatever characters a bike number contains |
| EventLog.EventTable.InsertEvents | pipeline/bikeman_event_generator/jobs/bikeman_db.py:75-93 | the batched insert skips keys that are there and counts the rows really written |
| EventLog.ListsAreMerged | pipeline/bikeman_event_generator/jobs/bikeman_db.py:75-93 | inserting any listing of a step's events is the specified merge |
| SizeBatching.ChunkFilesBySize | airflow/dags/dag_common.py:182-207 | order and content are kept, every batch respects both limits unless it is a single file, and no batch could have taken the next one's first file; limits below 1 are refused |
| SizeBatching.GreedyIsOptimal | airflow/dags/dag_common.py:182-207 | no contiguous batching under the same limits has fewer batches |
| SizeBatching.GreedyStaysAhead | airflow/dags/dag_common.py:182-207 | after as many batches, greedy has placed at least as many files as any other batching |
| SizeBatching.ChunkListKeepsOrder | airflow/dags/dag_common.py:167-179 | fixed-size batches lose and reorder nothing, and only the last may be short |

## Left out

- RentalJobs.SilverJobs.RunDaily: the Silver document's timestamp, and the boolean and date formats of the environment and the event metadata.
- RentalProtocol.RunsAreSafe: an accepted empty-day approval is assumed to write only while no table holds a row of its day, and no load of that day follows; its manifest checks do not establish that. RentalProtocol.ApprovalIsSafeIff is the exact condition, and the checks are in BronzeJobs.BronzeMeta.ConfirmEmpty.
- RentalTransform.PassingPartsPassTogether: chunk independence of the written rows is stated for ranges that pass the gates, since the ratio gate itself depends on the cut.
- RentalTransform.ChunkIndependence: Bronze is a set of rows, so exact duplicates are one row; they are folded by the de-duplication anyway and only change logged row counts. Ingestion and quarantine timestamps set while writing are not modelled.
- ManifestKey.KeyRoundTrip: years below 1000 (strftime does not pad them on every platform), the trailing newline the key pattern tolerates, non-ASCII digits, and the historical KST offsets before 1988.
- RawCollection.RawStore.CollectSnapshot: a fetch is a function of its hour; timing, thread-pool size and log output are not modelled.
- CollectedRun.CollectedRunReaches: the watermark is the same when the run's windows are collected and when they are selected, and manifest keys that no collection printed are assumed away.
- FailureReport.RunLeavesNoGap: stated for Bronze unchanged during the run; no progress of the watermark beyond cutoff - 31 is claimed, because the code makes none.
- IdentityRebuild.CompleteTableSurvives: an event is a value that Bronze keeps, so a later copy replacing an earlier one in the de-duplication is not modelled. Quarantine and quality-result tables are not modelled.
- LatestState.TableIsLatestOfEverythingRead: the bike_id completeness and uniqueness checks before the overwrite are not modelled; a NULL bike_id is assumed away.
- FirstSeen.DimBike.RunJob: start_year, and what the checks on the finished table ask; that they may stop a run is modelled. The range is bounded by the Silver watermark and the cap outside the model.
- EventLog.EventTable.InsertEvents: the worker pool, and rows that were not written by these two jobs.
- Suspension.SuspendsTheTop: one station at a time; the joins that find a bike's station and its stock are given as arguments.
- UsageFeatures.AnchorsShareDailySums: sums are over the reals, not floating point; fault features, labels and the final ratios.
- Airflow wiring, trigger rules, pools, sensors, alerts and EMR submission: they orchestrate external systems.
- HTTP clients, S3, pyiceberg, DuckDB and Spark internals: an S3 put and an Iceberg commit are atomic, SQL is its relational meaning.
- Date-format parsing, regular-expression extraction, encodings, zip and xlsx handling, column aliases: total functions or preconditions.
- Model training, scoring and quantiles: only that grades are cut off by score.
- Bronze Bikeman collection, progress of its watermark: with its default cap it does not move.
- Data-quality plumbing, serving-database sync, the API and the web interface, compaction: thin or library-bound.
- Manual watermark edits: outside every guarantee here.
