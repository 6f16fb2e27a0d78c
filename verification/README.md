# Verified models of the persistence and recovery scripts

The `scripts/` directory holds the tools that keep the game's data safe: they back it up,
recover items from it, migrate it, archive it, erase it and export it. This project models
the logic of eleven of them in Dafny and proves what their documentation, their error
messages and their tests take for granted.

| module | script | subject |
|---|---|---|
| `Quarantine`, `QuarantinePlan`, `QuarantineRecovery` | `classify_legacy_item_quarantine.py` | classifying parent chains, approving rows, allocating UIDs, rewriting the forest |
| `Retention`, `Publication` | `persistence_backup.py` | bucket retention, pruning and capacity; publication with a crash possible between any two steps |
| `Topology` | `classify_item_topology.py` | memoised root resolution and what an empty report means |
| `Dependencies` | `validate_data_lifecycle.py`, `lifecycle_archive.py` | dependency graphs and orders |
| `Encoding`, `Fingerprints`, `Histories` | `lifecycle_archive.py`, `migration_runner.py` | length-prefixed digests, row fingerprints, the history checksum |
| `Plans`, `ArchiveBatch` | `lifecycle_archive.py` | plans and their authorization, the archive batch machine |
| `Migrations` | `migration_runner.py` | prefix validation, success-last recording, the head checksum |
| `Gate` | `session14_gate.py` | the readiness gate against arbitrary adapters |
| `Materialization` | `character_materialization_readiness.py` | audit and repair |
| `Macros`, `ItemRoots` | `chaos_eq_analyze.py` | preprocessor constants, item roots |
| `Erasure` | `account_erasure.py` | erasure requests over one tombstone ledger |
| `Export` | `personal_data_export.py` | export requests and the spool |
| `Wrappers`, `Chains`, `Ordering` | | options and results, parent-pointer chains, sorting |

Each script keeps its form. Objects that change are classes, loops are loops, and each
method is proved against a function of its inputs and old state. What is said about whole
runs is said about those functions: a run is a sequence of calls, steps or attempts with
arbitrary arguments, and a refused call keeps whatever it had assigned before it raised.
`dafny verify dfyconfig.toml` checks everything.

Conventions that hold throughout:

- A raised error is a result value or a `false`. A Python set or dictionary iteration is an
  arbitrary choice of the next element, so a contract that fixes the outcome also shows that
  the order has no effect.
- A hash is a parameter. Where a statement needs two digests to differ it names the inputs
  that must not collide; no hash is assumed to be injective.
- Adapters, executors, clocks, file contents and other writers are arbitrary.

Some results say that the code does less than one might expect, each with the exact
condition under which it does what one expects and an input on which it does not:

- A second `pause` overwrites the status a batch would return to, and the batch can then
  never leave PAUSED (`ArchiveBatch.PauseThenResume`, `ArchiveBatch.SecondPauseWedges`,
  `ArchiveBatch.WedgedForever`).
- `record` commits its row even when the head has moved. The tables survive that exactly if
  they already hold the row's id or number, or still the history that was read: a runner
  that merely got ahead is harmless, one that shortened or rewrote the history is not, and
  then every later run refuses (`Migrations.RecordKeepsTablesIff`,
  `Migrations.GettingAheadIsHarmless`, `Migrations.PoisonExists`,
  `Migrations.PoisonedForever`).
- `dependency_order` follows direct dependencies among the requested stores. It respects
  the indirect ones too, whatever the order of the request, exactly if each of them is
  joined inside the request (`Dependencies.ChainsAreRespectedIff`,
  `Dependencies.GapInTheRequest`).
- Nothing checks that the `uid_candidates` of the quarantine evidence are true. Planned
  UIDs are distinct exactly if the rows that keep theirs have distinct ones
  (`QuarantineRecovery.PlannedUidsDistinctIff`, `QuarantineRecovery.SharedUidIsPlannedTwice`).
- `build_plan` does not look at the reference of the global approval, so a plan can be
  planned that nobody can be authorized to run (`Plans.PlannedIsAuthorizedIff`,
  `Plans.PendingReferenceIsPlanned`). Today only a snapshot built by hand reaches this:
  `load_policy` refuses every manifest whose global approval is in force.
- A published generation is not recognised for resumption if replication was configured
  after the previous one had been completed without it (`Publication.ResumeIsRecognisedIff`,
  `Publication.StrandedGeneration`).

The repair of materialized rows, in contrast, always converges on what the queries read
(`Materialization.RepairSilencesTheAudit`): `evaluate` does not compare a reported parent
with its later children, but the queries join a child only to a parent of its own holder.

## Model

| member | source | states |
|---|---|---|
| `Quarantine.AdmitRows` | scripts/classify_legacy_item_quarantine.py:194-204 | rows are accepted exactly if there is at least one and no row reference, evidence reference or (table, row id) pair is repeated |
| `Quarantine.WalkAncestry` | scripts/classify_legacy_item_quarantine.py:243-256 | the walk reports a cycle exactly if the chain revisits a node within the limit, and excess depth exactly if it visits more distinct nodes than the limit |
| `Quarantine.GraphReasons` | scripts/classify_legacy_item_quarantine.py:234-257 | for every row the four graph reasons hold exactly when the parent is unknown, the chain cycles, is too deep, or changes owner |
| `Quarantine.ScanAncestors` | scripts/classify_legacy_item_quarantine.py:282-290 | a row without defects of its own is tainted exactly if some ancestor on its chain has a direct reason |
| `Quarantine.Classify` | scripts/classify_legacy_item_quarantine.py:260-299 | one classification for every row, in report order, with the reasons and the primary reason the row's chain determines |
| `Quarantine.RecoverableMeansCleanAncestry` | scripts/classify_legacy_item_quarantine.py:234-299 | a row is called recoverable exactly if its whole chain ends at a root within the limit, has one owner, and every row on it is clean; no walk, no visited set on the right-hand side |
| `QuarantinePlan.SeedApproved` | scripts/classify_legacy_item_quarantine.py:336-357 | the seeding loop yields exactly the rows each verdict calls for, and fails exactly if some disposition is invalid for its row |
| `QuarantinePlan.GrowDescendants` | scripts/classify_legacy_item_quarantine.py:360-376 | the growing fixpoint approves all candidates, or fails exactly if some candidate does not descend from an approved row through candidates |
| `QuarantinePlan.PruneOrphans` | scripts/classify_legacy_item_quarantine.py:377-391 | the pruning fixpoint leaves the rows whose whole approved chain is intact and fails exactly if an orphan was to be recovered, in whatever order the set is iterated |
| `QuarantinePlan.AssignUids` | scripts/classify_legacy_item_quarantine.py:394-424 | the assignment loop always makes progress on a complete graph, hands out consecutive fresh UIDs parents first, and fails only when 64 bits are exhausted |
| `QuarantinePlan.FindRoot` | scripts/classify_legacy_item_quarantine.py:427-429 | the root walk ends, at the true root, inside the approved set |
| `QuarantinePlan.BuildRows` | scripts/classify_legacy_item_quarantine.py:425-433 | every approved row once, with its new UID, its parent's new UID and its root's new UID, in plan order |
| `QuarantineRecovery.CheckInputs` | scripts/classify_legacy_item_quarantine.py:325-335 | inputs are accepted exactly if classifications, dispositions and evidence references all belong to this evidence |
| `QuarantineRecovery.FloorClearsEvidence` | scripts/classify_legacy_item_quarantine.py:394-398 | the UID floor is at or above both allocator floors and, as far as 64 bits allow, beyond every evidence UID |
| `QuarantineRecovery.ComputeFloor` | scripts/classify_legacy_item_quarantine.py:394-398 | the loop computes that floor |
| `QuarantineRecovery.CandidatesAreAnchored` | scripts/classify_legacy_item_quarantine.py:360-376 | in an admissible selection every dependent row descends from a recoverable one, so growing never gets stuck |
| `QuarantineRecovery.DecideIsAdmissible` | scripts/classify_legacy_item_quarantine.py:336-393 | a plan is made exactly if every row is set aside or eligible with an equally selected parent, and it then covers exactly the rows not held or discarded |
| `QuarantineRecovery.ApproveSelected` | scripts/classify_legacy_item_quarantine.py:336-393 | the loops approve exactly that selection, or nothing, whatever the iteration order |
| `QuarantineRecovery.PlanApproved` | scripts/classify_legacy_item_quarantine.py:392-434 | UID allocation and row building for an approved selection |
| `QuarantineRecovery.PlanMatching` | scripts/classify_legacy_item_quarantine.py:336-434 | after the input checks the outcome (rows, undispositioned count, refusal, next UID) is fixed by the evidence and the dispositions alone |
| `QuarantineRecovery.PlanRecovery` | scripts/classify_legacy_item_quarantine.py:321-434 | the whole planner at depth 32: mismatched artifacts are refused; otherwise the outcome is the one above |
| `QuarantineRecovery.FreshUidsAreNew` | scripts/classify_legacy_item_quarantine.py:394-422 | fresh UIDs are not below the floor, below 2^64 - 1, and unlike every evidence UID |
| `QuarantineRecovery.FreshUidIsOwn` | scripts/classify_legacy_item_quarantine.py:394-422 | a fresh UID is shared with no other planned row |
| `QuarantineRecovery.PlannedUidsDistinctIff` | scripts/classify_legacy_item_quarantine.py:394-434 | all planned UIDs are distinct exactly if no two rows that keep their UID share one |
| `QuarantineRecovery.SharedUidIsPlannedTwice` | scripts/classify_legacy_item_quarantine.py:394-424 | evidence the reader accepts, with every count saying one, under which an admissible plan repeats a UID |
| `QuarantineRecovery.TrueCountsGiveDistinctUids` | scripts/classify_legacy_item_quarantine.py:153-208 | that condition follows if every `uid_candidates` count is true of the evidence, which the reader does not check |
| `QuarantineRecovery.PlanIsTheRelabelledForest` | scripts/classify_legacy_item_quarantine.py:425-433 | the planned parent pointers are the evidence pointers with every node renamed to its new UID |
| `QuarantineRecovery.NewRootsAreTrueRoots` | scripts/classify_legacy_item_quarantine.py:425-433 | every planned root UID is the true root of its row in the new forest, within the depth limit |
| `QuarantineRecovery.PlannedChainHasOneOwner` | scripts/classify_legacy_item_quarantine.py:234-299 | every row on a planned row's chain has that row's owner |
| `Retention.KeepTier` | scripts/persistence_backup.py:466-472 | one tier of the loop keeps the first generation of every bucket in the window |
| `Retention.FirstOfBucket` | scripts/persistence_backup.py:466-472 | in newest-first order, first of a bucket means newest of the bucket |
| `Retention.KeptNames` | scripts/persistence_backup.py:464-473 | the names kept are exactly those of the generations the declarative policy retains |
| `Retention.KeptLaterWasKept` | scripts/persistence_backup.py:438-473 | what a later evaluation keeps of the present generations is kept now, even with newer generations beside it and with manifests as far ahead of the clock as `verify` accepts |
| `Retention.RetainedFromSurvivors` | scripts/persistence_backup.py:464-473 | evaluating the policy over any set between the kept ones and all of them gives the kept ones |
| `Retention.RetainedIsIdempotent` | scripts/persistence_backup.py:504-511 | rotating again at the same time removes nothing |
| `Retention.NothingNeededIsLost` | scripts/persistence_backup.py:438-511 | after any history of publishing and pruning, clocks lagging by up to what `verify` accepts, everything any later evaluation over all generations ever made would keep is still there |
| `Retention.IncrementalPruningIsThePolicy` | scripts/persistence_backup.py:438-511 | after any such history the next pruning leaves exactly what the policy keeps of every generation ever made |
| `Retention.TierIsSmall` | scripts/persistence_backup.py:466-472 | a tier keeps at most as many generations as its count |
| `Retention.RetainedIsBounded` | scripts/persistence_backup.py:464-473 | at most two plus the three tier counts are kept |
| `Retention.KeptBytes` | scripts/persistence_backup.py:504-511 | the capacity sum is the total size of the kept generations |
| `Retention.AdmittedCaptureFits` | scripts/persistence_backup.py:748-778 | a capture admitted over a root that lists fits at every later rotation, so the retention check cannot refuse it |
| `Retention.BackupRoot.Listing` | scripts/persistence_backup.py:438-461 | refuses exactly if a manifest is too far ahead of the clock; otherwise all generations, newest first |
| `Retention.BackupRoot.Rotate` | scripts/persistence_backup.py:438-511 | rotation refuses and touches nothing, exactly for an unlistable root, a destination that is not newest or too little capacity, or leaves exactly the retained generations |
| `Retention.BackupRoot.Admits` | scripts/persistence_backup.py:748-778 | admission decides the capacity check, and what it admits fits whenever it is rotated in |
| `Retention.BackupRoot.PruneUnretained` | scripts/persistence_backup.py:489-501 | pruning leaves exactly the listed generations whose names are kept |
| `Publication.InvNext` | scripts/persistence_backup.py:688-793 | every step of backup, resume, finalize, a crash, an operator's clean-up and an edit of the configuration keeps the protocol invariant |
| `Publication.InvRun` | scripts/persistence_backup.py:688-793 | the invariant holds in every state of every run |
| `Publication.PublishKeepsReceipt` | scripts/persistence_backup.py:784-786 | publishing makes the new generation newest and the receipted one second |
| `Publication.ReceiptedGenerationSurvives` | scripts/persistence_backup.py:666-793 | in every state of every run, the configuration edited at will between jobs, the receipted generation is on disk and at most one is newer |
| `Publication.ResumeIsRecognisedIff` | scripts/persistence_backup.py:666-679 | for a published generation without receipt beside a receipted one, `previous_completion_matches` holds exactly unless replication is configured now and was not when the receipt was written |
| `Publication.StrandedGeneration` | scripts/persistence_backup.py:666-679 | a run, under configurations `policy_load` accepts and with generations that hold bytes, that ends with a published generation within the RPO which the receipt does not let resume |
| `Publication.RotationAlwaysFits` | scripts/persistence_backup.py:504-511 | the capacity refusal of `rotate` cannot occur under the configuration in which capacity was last weighed |
| `Publication.OwnCaptureFits` | scripts/persistence_backup.py:504-511 | a job that captured a generation can rotate whatever was edited before it started |
| `Publication.CompletedIsNewest` | scripts/persistence_backup.py:504-507 | the newest-generation refusal of `rotate` cannot occur in a run |
| `Publication.OkReceiptMeansRotated` | scripts/persistence_backup.py:688-704 | when an ok receipt is written the destination is newest, the root is exactly the retained set, and a configured replica was read back |
| `Publication.OkReceiptFollowsItsSteps` | scripts/persistence_backup.py:688-704 | an ok receipt is always preceded by its replication and then a rotation over undamaged generations, in that order |
| `Publication.OnlyUnneededIsPruned` | scripts/persistence_backup.py:489-511 | a generation leaves the root only if no later evaluation would keep it, and it is neither the newest nor the receipted one |
| `Topology.CanonicalRows` | scripts/classify_item_topology.py:246-266 | one canonical row per item, and exactly the items with ambiguous, duplicate or dangling rows are disqualified |
| `Topology.WalkToRoot` | scripts/classify_item_topology.py:276-305 | one memoised walk ends at the root of a clean chain or names a defect of the chain |
| `Topology.Roots` | scripts/classify_item_topology.py:269-306 | after all walks, in any order, every item is resolved as the plain walk would |
| `Topology.MemoAgreesWithPlainWalk` | scripts/classify_item_topology.py:269-306 | an item gets a root exactly if its plain chain reaches a parentless item within the limit without a disqualified item, and that root is the one it gets |
| `Topology.RootsAreUnique` | scripts/classify_item_topology.py:269-306 | a chain has at most one root |
| `Topology.CollectFindings` | scripts/classify_item_topology.py:324-352 | the reporting loop lists exactly the items that are not in order, each once |
| `Topology.Classify` | scripts/classify_item_topology.py:309-354 | findings cover exactly the items not in order, each once, sorted |
| `Topology.EmptyReportMeansHealthy` | scripts/classify_item_topology.py:309-354 | the report is empty exactly if no item has defective rows and every item is settled with its true root |
| `Topology.EmptyReportIsCustodyForest` | scripts/classify_item_topology.py:309-354 | an empty report makes the custody pointers a forest within the depth limit, equal to the payload forest, with true roots |
| `Topology.EmptyReportOneOwnerPerTree` | scripts/classify_item_topology.py:309-354 | and, the joins being faithful, gives every container tree one owner |
| `Topology.LifecycleFindingsHaveTrueRoots` | scripts/classify_item_topology.py:309-354 | expected and repairable findings have a clean chain and name its true root |
| `Topology.FailureIsNotLifecycle` | scripts/classify_item_topology.py:269-306 | a failure label is never a lifecycle category |
| `Topology.RepairSettlesItem` | scripts/classify_item_topology.py:309-354 | repairing converges: with every repairable finding written into custody, running the classifier again finds nothing repairable and reports exactly the other items it reported before |
| `Dependencies.Visitor.Visit` | scripts/validate_data_lifecycle.py:305-316 | the visit with its open and finished sets computes the recursive visit |
| `Dependencies.VisitKeeps` | scripts/validate_data_lifecycle.py:305-316 | a visit extends the order by the entry and all it needs, dependencies first and without repetition, or its refusal is justified by a cycle or an unknown dependency |
| `Dependencies.ValidateGraph` | scripts/validate_data_lifecycle.py:301-319 | accepts exactly if every dependency is an entry and there is no cycle |
| `Dependencies.DependencyOrder` | scripts/lifecycle_archive.py:196-220 | the nested visits refuse exactly repeated or unknown stores and cycles; otherwise they return the request permuted with every direct dependency on the right side, and the request itself where no two stores depend on each other |
| `Dependencies.OrderIsOrdered` | scripts/lifecycle_archive.py:196-220 | the same of the order as a function of graph and request |
| `Dependencies.OrderMeansAcyclic` | scripts/validate_data_lifecycle.py:301-319 | a dependencies-first order of all entries excludes cycles |
| `Dependencies.AcceptedGraphNeverCycles` | scripts/lifecycle_archive.py:196-220 | an accepted graph has no cycle within any request |
| `Dependencies.OrderAccepted` | scripts/lifecycle_archive.py:186-220 | after validation every request over known distinct stores is ordered |
| `Dependencies.ChainsAreRespectedIff` | scripts/lifecycle_archive.py:210-212 | for every accepted graph and every set of stores: whatever order they are requested in, all dependencies through any stores are respected, exactly if every such pair is also joined by a path inside the request |
| `Dependencies.GapInTheRequest` | scripts/lifecycle_archive.py:210-212 | a concrete accepted graph where a dependency through an unrequested store is not ordered |
| `Encoding.LengthPrefixed` | scripts/lifecycle_archive.py:160-162 | feeds the eight-byte big-endian length and the value |
| `Encoding.FramesDecode` | scripts/lifecycle_archive.py:160-162 | a reader recovers every list of values from its frames |
| `Encoding.DecodedIsFramed` | scripts/lifecycle_archive.py:160-162 | and reads nothing else: what it accepts is the framing of what it returns |
| `Encoding.FramesInjective` | scripts/lifecycle_archive.py:160-162 | lists of any arity are told apart by their frames |
| `Encoding.StableIdentity` | scripts/lifecycle_archive.py:178-183 | the key is the digest of the frames, the id its first sixteen bytes |
| `Encoding.StableKeyIdentifies` | scripts/lifecycle_archive.py:178-183 | equal keys mean equal value lists of any arity, unless these two inputs collide |
| `Fingerprints.Fingerprint` | scripts/lifecycle_archive.py:165-175 | fails exactly on rows out of bounds or repeated identities, with the error that applies |
| `Fingerprints.FingerprintIgnoresOrder` | scripts/lifecycle_archive.py:165-175 | verdict and value do not depend on the order of the rows |
| `Fingerprints.FingerprintIdentifies` | scripts/lifecycle_archive.py:165-175 | equal fingerprints mean the same rows, unless the inputs named collide |
| `Fingerprints.OrderIsUnique` | scripts/lifecycle_archive.py:168-168 | rows of distinct keys have exactly one sorted order |
| `Histories.HistoryChecksum` | scripts/migration_runner.py:227-236 | the nested loops hash seven framed values per row |
| `Histories.HistoryChecksumIdentifies` | scripts/migration_runner.py:227-236 | equal checksums mean the same history row for row, unless the two inputs collide |
| `ArchiveBatch.ArchiveBatchMachine.Open` | scripts/lifecycle_archive.py:323-345 | construction succeeds exactly with an exact authorization where one is needed and a valid identity |
| `Plans.AuthorizedIffIssued` | scripts/lifecycle_archive.py:274-343 | a batch accepts exactly the authorizations that `authorize_execution` returns for its plan under some policy snapshot and some target |
| `Plans.PlannedIsAuthorizedIff` | scripts/lifecycle_archive.py:222-303 | a plan that may run can be authorized for an allowed target under its own policy exactly if the reference of the global approval is not pending |
| `Plans.PendingReferenceIsPlanned` | scripts/lifecycle_archive.py:246-250 | a snapshot built by hand, in force under a pending reference, plans a batch that may run |
| `Plans.AuthorizationNamesTheRequest` | scripts/lifecycle_archive.py:222-345 | an authorization accepted for two built plans means the same request, policy and approval, unless the inputs named collide |
| `ArchiveBatch.ArchiveBatchMachine.Pause` | scripts/lifecycle_archive.py:352-356 | the new state and verdict of `pause` |
| `ArchiveBatch.ArchiveBatchMachine.Resume` | scripts/lifecycle_archive.py:358-362 | the new state and verdict of `resume` |
| `ArchiveBatch.ArchiveBatchMachine.Copy` | scripts/lifecycle_archive.py:364-396 | accepted exactly for an in-window, in-budget, admissible first copy or exact repetition; a late refusal leaves the COPYING status and nothing else |
| `ArchiveBatch.ArchiveBatchMachine.CheckRows` | scripts/lifecycle_archive.py:374-387 | the checks on the sorted rows decide window, bytes, identities and agreement with the archive |
| `ArchiveBatch.ArchiveBatchMachine.StoreAll` | scripts/lifecycle_archive.py:388-389 | filing the rows of an accepted copy fills an empty archive and leaves any other one unchanged |
| `ArchiveBatch.ArchiveBatchMachine.Verify` | scripts/lifecycle_archive.py:398-412 | the new state and verdict of `verify`, including the FAILED outcomes |
| `ArchiveBatch.ArchiveBatchMachine.Finalize` | scripts/lifecycle_archive.py:414-445 | the new state, and the authorization over the sorted keys |
| `ArchiveBatch.ArchiveBatchMachine.CompleteFinalize` | scripts/lifecycle_archive.py:447-460 | the new state; a refused acknowledgment still leaves FINALIZING |
| `ArchiveBatch.ArchiveBatchMachine.Restore` | scripts/lifecycle_archive.py:462-466 | returns the sorted archive exactly if its checksum is the recorded one |
| `ArchiveBatch.RunKeepsInv` | scripts/lifecycle_archive.py:352-460 | the batch invariant holds after every sequence of calls, refused or not |
| `ArchiveBatch.CompletedIsReconciled` | scripts/lifecycle_archive.py:352-460 | COMPLETED means mutation-capable, unblocked and reconciled on both sides; a dry run archives nothing |
| `ArchiveBatch.FinalIsFinal` | scripts/lifecycle_archive.py:352-460 | COMPLETED, FAILED and BLOCKED batches never change in any field |
| `ArchiveBatch.ArchiveIsWriteOnce` | scripts/lifecycle_archive.py:364-396 | once rows are archived no sequence of calls changes them |
| `ArchiveBatch.RefusedCallKeepsArchive` | scripts/lifecycle_archive.py:352-460 | a refused call changes at most the status |
| `ArchiveBatch.VerifiedRowsAreTheArchive` | scripts/lifecycle_archive.py:398-412 | after a successful verification the archive holds exactly the verified rows, then and after any further calls |
| `ArchiveBatch.FaithfulSourceVerifies` | scripts/lifecycle_archive.py:398-412 | verifying with the archived rows themselves never fails a batch |
| `ArchiveBatch.PauseThenResume` | scripts/lifecycle_archive.py:352-362 | pause then resume is the identity exactly on non-final batches without a saved status |
| `ArchiveBatch.SecondPauseWedges` | scripts/lifecycle_archive.py:352-356 | pausing twice loses the status to return to |
| `ArchiveBatch.WedgedForever` | scripts/lifecycle_archive.py:352-362 | no sequence of calls moves such a batch on, and every other paused batch resumes |
| `ArchiveBatch.AcknowledgmentNamesTheRows` | scripts/lifecycle_archive.py:447-460 | an acknowledgment is accepted only by a batch with the same archived rows, count and identity |
| `ArchiveBatch.RestoreReturnsTheArchive` | scripts/lifecycle_archive.py:462-466 | restore succeeds exactly from the first successful copy on and returns the archived rows |
| `Migrations.ValidateAppliedPrefix` | scripts/migration_runner.py:247-260 | accepts exactly the prefixes of the manifest's history |
| `Migrations.Executor.Applied` | scripts/migration_runner.py:406-426 | returns the rows exactly if count and checksum of the head agree with them |
| `Migrations.Executor.Record` | scripts/migration_runner.py:454-476 | reads, then inserts and conditionally moves the head; the insert is committed even when the head is not moved |
| `Migrations.MigrateOne` | scripts/migration_runner.py:279-295 | apply, verify and record of one migration, stopping at the first failure |
| `Migrations.RunPending` | scripts/migration_runner.py:273-298 | tables, call log and result of a whole attempt against any executor, lock released on every path after it was taken |
| `Migrations.TransactionKeepsTablesIff` | scripts/migration_runner.py:454-476 | over tables somebody else may have written, inserting the next row leaves them consistent exactly if they already hold its id or number, or still hold the history that was read |
| `Migrations.RecordKeepsTablesIff` | scripts/migration_runner.py:454-476 | the same for `record` as a whole at the end of a recorded prefix, whoever writes between its read and its transaction |
| `Migrations.GettingAheadIsHarmless` | scripts/migration_runner.py:454-476 | a runner that merely got ahead makes the insert fail and the tables stay as they are |
| `Migrations.RecordedWithoutRace` | scripts/migration_runner.py:454-476 | a record that succeeds saw the history it extends, whatever the row |
| `Migrations.LostRecordPoisons` | scripts/migration_runner.py:466-476 | a record that loses the compare-and-set leaves its row behind and rows and head disagreeing, whatever the row |
| `Migrations.PoisonExists` | scripts/migration_runner.py:454-476 | a manifest, a recorded prefix and a writer that clears the history in between, under any hash, leave the tables disagreeing |
| `Migrations.PoisonedForever` | scripts/migration_runner.py:406-426 | tables that disagree stop every later attempt before any apply and are never changed again |
| `Migrations.RecordAdvances` | scripts/migration_runner.py:454-476 | under the lock a record takes effect unless its command fails first, and moves the recorded prefix by one |
| `Migrations.RunProgresses` | scripts/migration_runner.py:273-298 | the calls of an attempt are apply, verify, record for each migration in order up to the one that failed; the history left is the corresponding prefix |
| `Migrations.AttemptResumes` | scripts/migration_runner.py:273-298 | an attempt starts at the first unrecorded migration and never shrinks the recorded prefix |
| `Migrations.CampaignKeepsPrefix` | scripts/migration_runner.py:273-298 | over any number of attempts failing anywhere the history is a growing prefix of the manifest |
| `Migrations.EditedHistoryBlocks` | scripts/migration_runner.py:247-278 | an edited, reordered, overlong or inconsistent history blocks before any apply and is left alone |
| `Gate.ValidateMetrics` | scripts/session14_gate.py:231-252 | no failure exactly if all metrics are within bounds, and every failure named is a real one |
| `Gate.Execution.RecordEvidence` | scripts/session14_gate.py:283-288 | accepts exactly safe identifiers not seen before |
| `Gate.Execution.ReconcileOne` | scripts/session14_gate.py:317-332 | one reconciliation call, recorded as a failure unless answered well |
| `Gate.Execution.RunWorkload` | scripts/session14_gate.py:291-334 | a workload with its reconciliations keeps the run on schedule or records where it went wrong |
| `Gate.Execution.InjectFault` | scripts/session14_gate.py:345-376 | the phases of a fault in order, and a compensating teardown after any failure |
| `Gate.Execution.RunPhases` | scripts/session14_gate.py:350-361 | phases stop at the first that is not answered well |
| `Gate.Execution.RunFault` | scripts/session14_gate.py:336-395 | a fault case, skipped when the target was left unrestored |
| `Gate.Execution.RunPrivacy` | scripts/session14_gate.py:396-423 | a privacy case, skipped when the target was left unrestored |
| `Gate.VerdictIsTheAdapters` | scripts/session14_gate.py:275-444 | a run is free of failures exactly if the adapter answers the whole schedule well, with distinct evidence |
| `Gate.FaultIsCareful` | scripts/session14_gate.py:336-395 | an injected fault is torn down before anything else is asked of the target |
| `Gate.Execute` | scripts/session14_gate.py:275-444 | for all adapter behaviours: the verdict, the call log on PASS, the case count, the teardown discipline, and no fault or privacy call after an unrestored compensation |
| `Materialization.FindItems` | scripts/character_materialization_readiness.py:289-327 | the loops compute the item findings |
| `Materialization.Evaluate` | scripts/character_materialization_readiness.py:330-365 | the audit is the findings of items, pet items and pets, in ascending order and each once |
| `Materialization.CleanIsHealthy` | scripts/character_materialization_readiness.py:289-327 | no item findings exactly if every prototype is known and every child lies in a present container of the same holder |
| `Materialization.ScanWithRepairs` | scripts/character_materialization_readiness.py:303-326 | with only repairable findings each is about one reported, mistyped, repairable parent, and every other child is in order |
| `Materialization.ItemsConverge` | scripts/character_materialization_readiness.py:289-327 | repaired items are clean exactly if the children shielded by a reported parent share its owner and scope |
| `Materialization.PetsConverge` | scripts/character_materialization_readiness.py:337-364 | pets with only repairable findings are clean after the repair |
| `Materialization.ApplyRepair` | scripts/character_materialization_readiness.py:509-619 | an audit whose findings are all repairable is repaired so that the next audit is silent; otherwise the row counts decide, characters and row counts stay, and only rows a finding names lose their type or get a room and hit points |
| `Materialization.GuardHolds` | scripts/character_materialization_readiness.py:608-611 | the row-count guard never fires for an audit's own repairable findings |
| `Materialization.RepairSilencesTheAudit` | scripts/character_materialization_readiness.py:245-619 | for every snapshot the queries read, with repairable findings only: the row-count guard holds, the next audit is silent, and the result is again such a snapshot |
| `Materialization.RepairConverges` | scripts/character_materialization_readiness.py:289-619 | on any other snapshot the next audit is silent exactly if the shielded children agree with their parents |
| `Materialization.OnlyNamedRowsChange` | scripts/character_materialization_readiness.py:585-607 | rows no finding names stay as they are, named ones change in the repaired columns only |
| `Materialization.ShieldedChildSurfaces` | scripts/character_materialization_readiness.py:303-306 | a snapshot no query returns, whose repair surfaces a new finding |
| `Macros.BitOfAnd` | scripts/chaos_eq_analyze.py:213-214 | bitwise and of unbounded integers, bit for bit |
| `Macros.BitOfOr` | scripts/chaos_eq_analyze.py:211-212 | bitwise or of unbounded integers, bit for bit |
| `Macros.Floor` | scripts/chaos_eq_analyze.py:221-221 | `//` rounds down for either sign of the divisor and fails only for zero |
| `Macros.LastDefinitionWins` | scripts/chaos_eq_analyze.py:227-231 | the table holds each name once, with its last definition |
| `Macros.DeeperAgrees` | scripts/chaos_eq_analyze.py:225-244 | expanding deeper never changes a value |
| `Macros.EvalIsSound` | scripts/chaos_eq_analyze.py:193-222 | evaluation over a sound table gives what the expression denotes |
| `Macros.CyclesDenoteNothing` | scripts/chaos_eq_analyze.py:225-244 | names on a cycle of definitions are in no sound table |
| `Macros.Assigned` | scripts/chaos_eq_analyze.py:238-241 | an assignment never changes a value already in the table |
| `Macros.Round` | scripts/chaos_eq_analyze.py:234-243 | a round keeps every value, gains every name one level deeper, and a round without change has reached the fixpoint |
| `Macros.Resolve` | scripts/chaos_eq_analyze.py:233-244 | the rounds end with a sound table complete to depth eight; for definitions before uses it is complete, for uses before definitions it has nothing deeper |
| `Macros.BitPresets` | scripts/chaos_eq_analyze.py:226-226 | the preset names and their powers of two |
| `Macros.ParseDefines` | scripts/chaos_eq_analyze.py:225-244 | the same, from the definitions in file order, with the preset bits never overridden |
| `ItemRoots.RootItemId` | scripts/chaos_eq_analyze.py:988-1001 | the walk returns the root exactly if the chain has one; a cycle or an unknown container gives none |
| `Erasure.ErasureCoordinator.Cancel` | scripts/account_erasure.py:179-182 | the new state and verdict of `cancel` |
| `Erasure.ErasureCoordinator.Confirm` | scripts/account_erasure.py:184-189 | the new state and verdict of `confirm` |
| `Erasure.ErasureCoordinator.Fence` | scripts/account_erasure.py:191-196 | the new state and verdict of `fence` |
| `Erasure.ErasureCoordinator.Drain` | scripts/account_erasure.py:198-203 | the new state and verdict of `drain` |
| `Erasure.ErasureCoordinator.Apply` | scripts/account_erasure.py:205-230 | the new state and verdict of `apply`, including the evidence it overwrites before refusing |
| `Erasure.ErasureCoordinator.Verify` | scripts/account_erasure.py:232-238 | the new state and verdict of `verify` |
| `Erasure.TombstoneLedger.Commit` | scripts/account_erasure.py:254-267 | the new request and ledger, and the tombstone in force |
| `Erasure.TombstoneLedger.RestorePreflight` | scripts/account_erasure.py:324-335 | refuses exactly bad identities and records without a scope; otherwise returns the surviving records |
| `Erasure.TombstoneLedger.Finalize` | scripts/account_erasure.py:337-341 | the new state and verdict of `finalize` |
| `Erasure.RunKeepsInv` | scripts/account_erasure.py:173-267 | the invariant over all requests and the shared ledger holds after every sequence of calls, and the ledger only grows |
| `Erasure.CompleteMeansErased` | scripts/account_erasure.py:173-341 | COMPLETE means fenced, all stores settled without identifiers, retained stores untouched, tombstoned for good, and no restored record of the scope passes the preflight ever after |
| `Erasure.FenceIsForever` | scripts/account_erasure.py:179-196 | a fence stays and closes cancellation |
| `Erasure.VerifiedEvidenceIsFrozen` | scripts/account_erasure.py:205-238 | from verification on the evidence never changes |
| `Erasure.OneRequestPerTombstone` | scripts/account_erasure.py:254-267 | a scope tombstoned by one request is never tombstoned by another |
| `Erasure.RefusalLeavesEvidenceOnly` | scripts/account_erasure.py:173-267 | a refused call changes nothing except the evidence of the one store whose apply did not reconcile |
| `Erasure.RetainedIdentifiersBlock` | scripts/account_erasure.py:214-229 | identifiers left in a retained store keep its evidence incomplete |
| `Erasure.SurvivorsAreTheRest` | scripts/account_erasure.py:324-335 | the preflight drops exactly the records of tombstoned scopes |
| `Export.SearchIsExact` | scripts/personal_data_export.py:235-244 | the nested search finds nothing exactly in values clean at every depth |
| `Export.FilterIsExact` | scripts/personal_data_export.py:247-262 | a filtered record has exactly the fields its rule keeps, is clean at every depth, and nothing clean is refused |
| `Export.ExportRequest.AddSectionBatch` | scripts/personal_data_export.py:265-310 | the new state and verdict, including what a refusal leaves behind |
| `Export.ExportRequest.FilterBatch` | scripts/personal_data_export.py:295-295 | filters every record, or fails if one fails |
| `Export.ExportRequest.Accept` | scripts/personal_data_export.py:296-310 | bounds and bookkeeping of an accepted batch |
| `Export.ExportRequest.BuildBundle` | scripts/personal_data_export.py:313-368 | the new state and the package |
| `Export.ExportSpool.Publish` | scripts/personal_data_export.py:445-487 | the new state and verdict of `publish` |
| `Export.ExportSpool.RetrieveOnce` | scripts/personal_data_export.py:489-511 | the new state and the package released |
| `Export.ExportSpool.Cancel` | scripts/personal_data_export.py:513-521 | drops records and package in every status |
| `Export.ExportSpool.Expire` | scripts/personal_data_export.py:523-532 | drops records and package once expired, in every status |
| `Export.ReleasedAtMostOnce` | scripts/personal_data_export.py:445-532 | over any run, with the spool file rewritten at will, at most one package is released |
| `Export.NothingAfterTheEnd` | scripts/personal_data_export.py:445-532 | after a release, cancellation, expiry or failure nothing is released and the request never reopens |
| `Export.EndedMeansNoRelease` | scripts/personal_data_export.py:513-532 | a cancelled or expired request releases nothing in any later call |
| `Export.CompleteSectionsAreFrozen` | scripts/personal_data_export.py:265-310 | a completed section never changes unless it is dropped whole |
| `Export.ReleasedIsWhatWasCollected` | scripts/personal_data_export.py:313-511 | a released package is the one built from the complete, bounded, clean sections |
| `Export.RebuildIsIdentical` | scripts/personal_data_export.py:284-290 | an empty batch for an excluded store reopens a package, and building again restores package and state exactly |
| `Export.BuiltPackageIsReleased` | scripts/personal_data_export.py:313-511 | a complete collection within bounds can be built, published and released |

## Left out

- Files, permissions, locks, symbolic links, `fsync`, temporary files, subprocesses, SQL text and TLS: only their effect on the modelled state is there.
- JSON and command-line parsing, field shapes and line patterns: inputs are already parsed records, with the uniqueness checks the parsers make.
- References, digests and row references of the quarantine evidence are numbers; only equality and order of them are used.
- `Publication.ReceiptedGenerationSurvives` and the other run theorems of that module take a generation's name to be its nanosecond stamp, later than every earlier name, and a clock that does not go back; the random suffix of the name, disk-space refusals and the blocked-retry marker are left out. Outcomes of capture, verification and replication are arbitrary, and a process uses the configuration it started with.
- `Publication.InvNext` is about a transition relation with one transition for each durable step of `backup` and `complete_generation`, because a crash may fall between any two; only `rotate` and `prune_unretained` are also modelled as methods (`Retention.BackupRoot`).
- `Topology.MemoAgreesWithPlainWalk` says nothing about which defect of a chain is reported; the first one found depends on the order in which items are walked, and `Topology.Roots` only promises that it is one of the chain's defects.
- `Topology.EmptyReportOneOwnerPerTree` needs the query's joins to relate a parent and a child of one owner, which is stated as a hypothesis.
- `Gate.Execute` leaves out `sanitized`, the report's hash and timings, and represents case identifiers as structured values; the original collects a fault's failures by the text prefix of its identifier, so a fault whose identifier extends another's with a colon could be listed under both. A mismatch count is an integer or absent; the original's comparison with 0 also accepts `False` and `0.0`.
- `Migrations.RunPending` leaves out the schema changes an apply makes, also a partial one. The exclusive lock is a hypothesis of the theorems that need it: `MysqlExecutor` takes the lock in a client session that ends with the command, so a deployment has to provide that exclusion in another way.
- `Migrations.RecordKeepsTablesIff` is about the history tables; the baseline table and `adopt` are not modelled.
- `Plans.AuthorizedIffIssued` takes lower-casing as a parameter that keeps the allowed targets, and `validate_manifest`, which at present admits no approved global policy, is not applied to the snapshot. `state_from_plan` and the state file are not modelled.
- `ArchiveBatch.ArchiveBatchMachine.Open`: digests, cursors and bounds enter the identities as their bytes, where the original passes their hexadecimal text.
- `Encoding.StableIdentity` takes byte strings: UTF-8 encoding is not modelled.
- `Materialization.RepairSilencesTheAudit` represents the queries by what they return: a present parent has its child's owner and scope, and listings of one row id agree in everything but the parent, which a parent join over repeated object UIDs can vary. Pets have distinct row ids, their primary key.
- `Materialization.ApplyRepair` leaves out the fingerprints of unaffected rows and the ownership conditions that the snapshot query has already established.
- `Macros.ParseDefines` starts from parsed expressions; comment stripping and the line pattern are left out, and so are memory limits on huge shifts.
- `Erasure.ErasureCoordinator.Apply` leaves out ownership tokens and `create_request`; tombstone tokens are opaque text.
- `Export.SearchIsExact` and the other statements about forbidden fields hold for any case folding of keys; `Erasure` folds store identifiers as ASCII, which they are.
- `Export.ExportRequest.BuildBundle` assumes the policy snapshot the request was created under, which the original does not recheck at that point; the guide texts of a bundle, the audit trail, ownership tokens and the reauthentication rate limits are left out.
- `Export.ExportSpool.Publish` treats `verify_bundle` as checksum and field checks on the parsed bundle; its count checks hold by construction there.
- Other scripts (restores, qualification, reconciliation, zone reports, equipment scoring) and the C and C++ sources are not modelled: mostly input and output, or long tables of independent cases.
