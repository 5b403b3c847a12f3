# Verified model of protected network change delivery

A Dafny model of how this repository keeps a reviewed network change consistent while steps fail, crash
or race, with proofs of what holds in every run. `dafny verify dfyconfig.toml` checks all of it.

Digests are symbolic: a digest is its content under a constructor, so equal digests mean equal content.
A canonical text is the text of one value; any other text is something a reader must reject. Calls into
devices, the network and the operating system are modelled as calls that may succeed or fail in every way
the code distinguishes. The clock never goes back and a sleep lasts at least as long as asked.

| file | what it models |
|---|---|
| Sequences.dfy, JsonTrees.dfy | sorting, distinctness, counting; JSON values |
| ManagedState.dfy | acceptance evidence, chain records, their validators and comparisons |
| AcceptanceStore.dfy, AcceptanceRuns.dfy | the acceptance store, and any number of its writers and readers interleaving |
| Publication.dfy, PowerLoss.dfy | publishing one file by temporary file and hard link, system call by system call; what a loss of power leaves of it |
| AuditFiles.dfy, AuditRuns.dfy | artifacts, records and envelopes of the audit store; its writers and their runs |
| ObservationStore.dfy | observation records over the audit store, listing and querying |
| Readiness.dfy, ReadinessLoop.dfy | the readiness policy with its two deadlines and one extension, and what turns, attempts and facts have to do with each other; the loop itself |
| Deployment.dfy, DeploymentRuns.dfy | the protected deployment step; what holds of every run of it |
| DeploymentOrder.dfy, DeploymentAnswers.dfy | what each call of the step waits for; how the run follows from the answers of its calls |
| DiffPaths.dfy, DiffMeaning.dfy | the bounded tree diff, and what its paths mean |
| LiveInit.dfy | initialising the store from two independent live reads |
| JunosTransaction.dfy | the confirmed-commit transaction and its confirmation (section 8.4 of RFC 6241) |
| Fleet.dfy, FleetValidator.dfy, FleetPlans.dfy, FleetPreflight.dfy | canaries and waves, the validator's own computation of them, the plan, preflight and final validation |
| Pagination.dfy | reading a paged result set |
| Observations.dfy | settling a collection, attempts before and after a delivery, and the record that brackets it |

Some statements one might expect are false of the code, and are replaced by exact conditions:

- A store of 1024 acceptance records takes one more and then cannot be read (`AcceptanceStore.ReadableAfterAppend`; `AcceptanceStore.BoundIsReached` has such a store).
- Not every published observation reads back: an instance that its own validator would reject is published without being validated again, and every listing then fails. Closure is kept exactly by valid ones (`ObservationStore.RunIsTwoLevelClosed`, `ObservationStore.InvalidIsPublished`).
- Not every stop of the readiness wait is recorded: a device first seen booted after the deadline has evidence that its own validator rejects (`Readiness.RecordableExactly`, `Readiness.BootAtTheDeadline`).
- Exit status 2 of the deployment step proves that no device command was issued only if the command did not itself exit with 2 and the release of the reservation does not raise (`DeploymentRuns.TwoProvesNoCommandExactly`).
- A commit asked for with other than five minutes hides a failed rollback (`JunosTransactions.RollbackHiddenExactly`, `JunosTransactions.RollbackIsHidden`).
- Something can leave a Junos transaction after a commit was attempted: a failure to remove the temporary directory, and only that (`JunosTransactions.NothingEscapesAfterAttempt`, `JunosTransactions.DirectoryErrorEscapes`).
- A settled change is not always valid evidence of one (`Observations.DurableSuccessExactly`).
- A publisher that is told its name exists has no promise that it survives a loss of power (`PowerLoss.ExistsMayBeLost`).

A directory sync that fails after a link takes back a file that others may already rely on; results that
exclude this say so, and `AcceptanceRuns.ResolutionsOrderedByEvents` and `AuditRuns.TakingBackExactly` say
exactly what is lost otherwise.

## Model

| member | source | states |
|---|---|---|
| `ManagedState.ChainProvesConvergence` | src/network_change_delivery/managed_state_store.py:112-166 | in any chain, however long, all records share one ownership envelope, and each record after the first proves CONVERGED with both compared digests equal to its own state digest and refers to its predecessor |
| `ManagedState.EvidenceOccursOnce` | src/network_change_delivery/managed_state_store.py:365-384 | no evidence is accepted twice in a chain: its digest fixes the generation it can hold |
| `ManagedState.PostWriteExtendsChain` | src/network_change_delivery/managed_state_store.py:216-242 | post-write evidence can be built for a head exactly when the time is UTC and the observed state equals the reviewed one on the chain's own envelope; it carries the time, commit, observation and predecessor it was built from, and the record built from it extends the chain |
| `ManagedState.ComparesExactly` | src/network_change_delivery/managed_state_store.py:400-460 | two states are compared exactly when both are valid and of one vertical and envelope; the comparison carries both digests and says that they agree exactly when the states are equal |
| `AcceptanceStore.ChainIsUnique` | src/network_change_delivery/managed_state_store.py:602-629 | a directory resolves to one chain at most, whatever order its files are listed in |
| `AcceptanceStore.SortRecoversChain` | src/network_change_delivery/managed_state_store.py:602-629 | sorting any listing of a chain's records by generation gives back that chain |
| `AcceptanceStore.ManagedStateStore.Records` | src/network_change_delivery/managed_state_store.py:602-629 | the scan succeeds exactly when the directory holds a chain within the bound, and returns that chain |
| `AcceptanceStore.ManagedStateStore.PersistAcceptance` | src/network_change_delivery/managed_state_store.py:649-696 | the whole new directory for every placement of other writers' files and every publication fault; refused, historical and stale evidence changes nothing, head evidence replays, other verticals are untouched |
| `AcceptanceStore.AppendExactly` | src/network_change_delivery/managed_state_store.py:649-696 | evidence is appended exactly when it adopts an empty chain or names the current head as its predecessor |
| `AcceptanceStore.RefusesExactly` | src/network_change_delivery/managed_state_store.py:649-696 | which answer each other offer gets: replay for the head's evidence, historical for an earlier record's, stale for other evidence that does not name the head, invalid for an advance of nothing |
| `AcceptanceStore.DecideExtends` | src/network_change_delivery/managed_state_store.py:649-696 | what is appended keeps the chain a chain, is new, and offering the same evidence again replays it; replay happens exactly for the head's evidence |
| `AcceptanceStore.ReadableAfterAppend` | src/network_change_delivery/managed_state_store.py:617-629 | after an append the directory resolves if and only if the chain had fewer than 1024 records |
| `AcceptanceStore.MoreToAccept` | src/network_change_delivery/managed_state_store.py:216-242 | every chain, however long, has valid evidence that extends it |
| `AcceptanceStore.BoundIsReached` | src/network_change_delivery/managed_state_store.py:617-629 | for every vertical there is a readable store of 1024 records and valid evidence that is accepted into it and leaves it unreadable |
| `AcceptanceStore.ManagedStateStore.AcceptAll` | src/network_change_delivery/managed_state_store.py:649-696 | one writer's sequence of offers, invalid ones included, takes the directory to exactly what a plain append-only list becomes, and each call returns what that list answers at that moment: the new record, the head replayed, or the error |
| `AcceptanceStore.AcceptedIntoExtends` | src/network_change_delivery/managed_state_store.py:649-696 | no offers drop or reorder what was accepted, and the list stays a chain |
| `AcceptanceStore.ReplayingHistory` | src/network_change_delivery/managed_state_store.py:649-696 | offering an accepted history again, from any point, reproduces it record by record |
| `AcceptanceRuns.ResolutionsAreOrdered` | src/network_change_delivery/managed_state_store.py:631-696 | with any writers interleaving and no sync failure after a link, of any two successful resolutions the earlier is a prefix of the later |
| `AcceptanceRuns.ResolutionsOrderedExactly` | src/network_change_delivery/managed_state_store.py:735-749 | in any run at all, sync failures included, two resolutions are in order if and only if no record of the earlier was taken back before the later |
| `AcceptanceRuns.ResolutionsOrderedByEvents` | src/network_change_delivery/managed_state_store.py:735-749 | the same in terms of what happened: two resolutions are in order if and only if each record of the earlier was not taken back in between, or was published again since it last was |
| `AcceptanceRuns.ResolvesExactly` | src/network_change_delivery/managed_state_store.py:602-629 | in every reachable directory, resolution succeeds if and only if no two published records claim one predecessor and there are at most 1024 record files |
| `AcceptanceRuns.DirectoryResolvesExactly` | src/network_change_delivery/managed_state_store.py:602-629 | whatever a directory holds, it resolves if and only if every file is a record under its own name with its predecessor there, no two records claim one predecessor and there are at most 1024 |
| `AcceptanceRuns.TornScan` | src/network_change_delivery/managed_state_store.py:602-629 | a scan that takes time resolves, if at all, to something between what the directory resolved to before it and after it; it resolves if and only if it missed no predecessor of a record it saw |
| `AcceptanceRuns.TornScanFails` | src/network_change_delivery/managed_state_store.py:602-629 | such a scan can fail although the directory resolves before and after it |
| `AcceptanceRuns.ForkIsPermanent` | src/network_change_delivery/managed_state_store.py:365-384 | once two different successors of one head are published, every later resolution fails |
| `AcceptanceRuns.RunIsSound` | src/network_change_delivery/managed_state_store.py:649-696 | in every reachable state each published or pending record is valid and its predecessor is published |
| `AcceptanceRuns.UnlinkBreaksOrder` | src/network_change_delivery/managed_state_store.py:735-749 | a run in which one directory sync fails after the link and two successful resolutions are not ordered |
| `Publication.NeverPartial` | src/network_change_delivery/audit_store.py:625-677 | at every moment of every interleaving, crashes and short writes included, a final name is absent or shows the whole content of one publisher of that name |
| `Publication.NeverReplaced` | src/network_change_delivery/audit_store.py:625-677 | a visible file stays as it is, except that its own publisher may take it back after a failed directory sync |
| `Publication.StaysVisible` | src/network_change_delivery/audit_store.py:625-677 | without such a failure what was visible stays visible, unchanged, to the end of the run |
| `Publication.OneWinner` | src/network_change_delivery/audit_store.py:625-677 | of several publishers of one name at most one holds it, and its content is the visible one |
| `Publication.LinkDecides` | src/network_change_delivery/audit_store.py:649-658 | a publisher learns EEXIST exactly when the name is already visible, and otherwise makes its content visible and nothing else |
| `PowerLoss.WholeOrAbsent` | src/network_change_delivery/audit_store.py:625-677 | after a loss of power at any moment of any interleaving a final name is absent or shows the whole content of one publisher of it |
| `PowerLoss.PublishedSurvives` | src/network_change_delivery/audit_store.py:625-677 | once a publisher's directory sync has succeeded, its name shows its whole content after any later loss of power |
| `PowerLoss.ExistsMayBeLost` | src/network_change_delivery/audit_store.py:649-666 | a run in which a publisher is told that its name exists and a loss of power then leaves nothing there |
| `Publication.Directory.PublishNew` | src/network_change_delivery/audit_store.py:625-677 | one call with every outcome of every system call given: success, EEXIST and failure each exactly when the calls say so, with the whole content under an unused name on success and the name left alone otherwise, except after a failed sync |
| `Publication.ReadPrivateFile` | src/network_change_delivery/audit_store.py:588-623 | the reading loop returns the content if and only if the reads give all of it and its size is steady and within bounds, for any short reads; otherwise nothing |
| `AuditFiles.ReadsExactly` | src/network_change_delivery/audit_store.py:158-175 | a reference reads as an artifact if and only if it is that artifact's own reference and its file holds the artifact, valid, signed and within bounds |
| `AuditFiles.IdentityDetermines` | src/network_change_delivery/audit_store.py:514-545 | two prepared artifacts of one kind under one name are the same artifact, for intrinsic and content digests alike |
| `AuditFiles.PreparesExactly` | src/network_change_delivery/audit_store.py:514-545 | which artifacts are given a name, kind by kind, and whether that name is their own digest or the digest of their text |
| `AuditFiles.AdmitsRecordExactly` | src/network_change_delivery/audit_store.py:177-199 | a record is admitted if and only if it is valid, signed, within 256 KiB and each of its references is that of a filed, valid and signed artifact within 4 MiB |
| `AuditFiles.AdmitsExecutionExactly` | src/network_change_delivery/profiled_audit.py:205-254 | an executed envelope is admitted if and only if its three artifacts are filed, its original bytes decode to them under the digests it names, and change, device, interface, credential source and reference, build, commit, target, plan digest, plan bytes, authorization, assurance, executed plan and outcome all agree, each equality written out |
| `AuditFiles.AdmitsComplianceExactly` | src/network_change_delivery/profiled_audit.py:205-230 | the same for a compliance envelope and its one artifact |
| `AuditRuns.RunIsClosed` | src/network_change_delivery/audit_store.py:177-217 | in every state of every run of publications after possibly stale checks, every published record and envelope reads back with all its evidence |
| `AuditRuns.PublishedForGood` | src/network_change_delivery/audit_store.py:123-175 | whatever was published reads back as itself at once and at every later moment; an artifact its schema rejects is there but unreadable, exactly then |
| `AuditRuns.ReadsRepeat` | src/network_change_delivery/audit_store.py:158-217 | a successful read gives the same value again after any further publications |
| `AuditRuns.RecordEvidence` | src/network_change_delivery/audit_store.py:201-217 | each reference of a record that reads leads to the one valid artifact it names |
| `AuditRuns.EnvelopeEvidence` | src/network_change_delivery/audit_store.py:346-413 | each reference of an envelope that reads has its artifact filed and its original bytes filed under their digest and decoding to that artifact |
| `AuditRuns.EnvelopeMeans` | src/network_change_delivery/audit_store.py:346-413 | an envelope that reads is one that would be admitted with the original bytes filed for it, with every agreement of fields that this means |
| `AuditRuns.OrdinaryDeliveryReadsBack` | src/network_change_delivery/audit_store.py:282-331 | a store and an executed envelope whose device differs from its target, with a plan not in canonical form: it is admitted, and it reads back once published |
| `AuditRuns.TakingBackExactly` | src/network_change_delivery/audit_store.py:660-666 | whatever artifacts and original bytes are taken back, the store stays closed if and only if no record refers to any of them and no envelope relies on any of them |
| `AuditRuns.TakingBackBreaksRecord` | src/network_change_delivery/audit_store.py:660-666 | removing a published artifact makes every record that refers to it unreadable, and publishing it again restores it |
| `AuditRuns.AuditStore.PersistArtifact` | src/network_change_delivery/audit_store.py:123-156 | with other writers at any point: success means the artifact's file is in place and reads back if its schema is valid; failure publishes nothing and is told only for an artifact that is not admitted, a conflicting file or a failing publication |
| `AuditRuns.AuditStore.PersistRecord` | src/network_change_delivery/audit_store.py:177-199 | success publishes this record once and it reads back with its evidence; failure publishes nothing and is told only for a record that is not admitted, a taken identity or a failing publication |
| `AuditRuns.AuditStore.PersistEnvelope` | src/network_change_delivery/audit_store.py:282-331 | success publishes the original bytes and then the envelope, which reads back; failure leaves at most original bytes behind and is told only for an envelope that is not admitted, conflicting bytes, a taken identity or a failing publication |
| `ObservationStore.RunIsTwoLevelClosed` | src/network_change_delivery/configuration_observation_store.py:36-85 | through any run, every observation reads back with its parent and the parent with its artifacts if and only if every observation published was one its own validator accepts; parents and artifacts read in any case |
| `ObservationStore.ObservedForGood` | src/network_change_delivery/configuration_observation_store.py:62-85 | the parent a published observation was checked against and the parent's artifacts read the same at every later moment; the observation reads as published if its own validator accepts it, and never otherwise |
| `ObservationStore.InvalidIsPublished` | src/network_change_delivery/configuration_observation_store.py:36-60 | a correctly signed observation that its own validator rejects is admitted and published beside a record that reads |
| `ObservationStore.InvalidBlocksListing` | src/network_change_delivery/configuration_observation_store.py:62-120 | once such an observation is published every later listing fails, whatever its bound |
| `ObservationStore.AdmitsObservationExactly` | src/network_change_delivery/configuration_observation_store.py:36-60 | an observation is admitted if and only if it is signed, within 64 KiB, and its parent reads, has the digest it names and has its target |
| `ObservationStore.ConfigurationObservationStore.PersistObservationRecord` | src/network_change_delivery/configuration_observation_store.py:36-60 | it succeeds exactly for an admitted observation under a free name whose publication works, and adds exactly this record to the archive as other writers left it, which reads back exactly if its own validator accepts it; failure adds nothing |
| `ObservationStore.IterObservationRecords` | src/network_change_delivery/configuration_observation_store.py:87-120 | a listing succeeds exactly when the bound is valid and not passed, no unexpected entry is there and every record reads; it lists every record once in name order |
| `ObservationStore.Find` | src/network_change_delivery/configuration_observation_store.py:161-178 | the answer is exactly the observations of the parent in name order, or there are more of them than the result bound |
| `ObservationStore.FindByParent` | src/network_change_delivery/configuration_observation_store.py:122-136 | in a closed archive a query for an existing parent with valid bounds fails only because one of the two bounds is passed |
| `ObservationStore.OneAnswer` | src/network_change_delivery/configuration_observation_store.py:122-136 | the answer to a query is unique |
| `ReadinessLoop.LocalTerraformOperations.WaitReadiness` | scripts/run_profiled_cml_staging.py:588-728 | the loop ends for every pattern of answers; the turns form one justified chain from the whole scope to what is left; a turn that decided to probe tries every remaining device unless the deadline comes first, and a device has a READY fact exactly when an attempt to it connected by the deadline, unless its fact was rejected; when the policy stops, READY and TIMED_OUT facts partition the scope if and only if the stop is recordable, and otherwise a device left has evidence its validator rejects and no fact; every turn decides on states and first boot times as read less than ten seconds before |
| `ReadinessLoop.LocalTerraformOperations.RunTurns` | scripts/run_profiled_cml_staging.py:603-728 | termination by extensions left, polls left on the ten-second grid and five-second sleeps left; every turn is in the history, linked to the one before and justified under the deadline then in force; only a READY fact dated past two hours ends it otherwise |
| `ReadinessLoop.LocalTerraformOperations.Round` | scripts/run_profiled_cml_staging.py:603-728 | each turn adds exactly one pass telling its time, the devices remaining, what was known and the decision, and devices leave only in a turn that decided to probe |
| `ReadinessLoop.LocalTerraformOperations.Turn` | scripts/run_profiled_cml_staging.py:604-617 | the start of a turn polls the states when that is due: what is decided on was read less than ten seconds ago, and the next poll is after now and at most ten seconds ahead |
| `Readiness.ReadyWithinPolicy` | scripts/run_profiled_cml_staging.py:618-700 | every READY fact stems from an attempt made before 300 seconds, and after 180 only under the one extension, in a turn that decided to probe this device and, if it began at or after 180 seconds, in which no remaining device's grace had expired |
| `Readiness.EveryTurnIsThorough` | scripts/run_profiled_cml_staging.py:642-700 | a remaining device that a probing turn did not try was left only because the deadline had come before the turn was over |
| `Readiness.PolicyHolds` | scripts/run_profiled_cml_staging.py:618-641 | in numbers: a turn probes before 180 seconds, or before 300 after the extension and with no booted device 60 seconds past its first boot; it extends once, at or after 180, only if each remaining device is in a transitional state or booted less than 60 seconds ago; it stops for a grace only at or after 180 with such a device past it, and for a deadline only at 300 after the extension or at 180 with a device not worth waiting for |
| `Readiness.AdmittedExactly` | scripts/run_profiled_cml_staging.py:729-764 | an expired grace means a remaining device booted at least 60 seconds ago; an extension is admitted exactly when every remaining device is in one of the five transitional states or booted less than 60 seconds ago |
| `Readiness.BootIsFirstRead` | scripts/run_profiled_cml_staging.py:608-614 | the boot time a turn uses is that of the first poll that read the device as booted |
| `Readiness.StateIsLastRead` | scripts/run_profiled_cml_staging.py:608-614 | the state a turn uses is the one last read, if any poll read one |
| `Readiness.Judge` | scripts/run_profiled_cml_staging.py:618-641 | every decision meets the policy's reasons for it under the deadline in force |
| `Readiness.HistoryGrows` | scripts/run_profiled_cml_staging.py:618-641 | one justified turn keeps the whole history justified and moves the deadline exactly when it extends |
| `Readiness.CatchUp` | scripts/run_profiled_cml_staging.py:615-616 | the next poll stays on the grid, after the observation and by ten seconds at most |
| `ReadinessLoop.LocalTerraformOperations.ProbeAll` | scripts/run_profiled_cml_staging.py:642-719 | every remaining device is tried unless the deadline comes first; each that connects by the deadline is recorded READY with its last state and boot time, its elapsed time being read after the deadline check; facts on other devices do not change |
| `ReadinessLoop.LocalTerraformOperations.RecordTimedOut` | scripts/run_profiled_cml_staging.py:796-826 | each remaining device is recorded TIMED_OUT with its last state and boot time, in any order, up to the first whose evidence is rejected; it completes if and only if none is |
| `Readiness.RecordableExactly` | src/network_change_delivery/profiled_staging.py:103-114 | the evidence of a stop is valid for every remaining device if and only if the stop was for an expired grace within two hours, or was at the deadline and none of them was first seen booted after it |
| `Readiness.BootAtTheDeadline` | scripts/run_profiled_cml_staging.py:608-640 | a run within the policy whose stop at 300 seconds has a device first seen booted at 300.4 seconds, so that its evidence is rejected |
| `Readiness.Absorb` | scripts/run_profiled_cml_staging.py:608-614 | the first boot time of each device is kept, the last observed state replaces the earlier one |
| `Deployment.Delivery.SingleDeploy` | scripts/buildkite/profiled_delivery.py:613-796 | whatever fails, the journal of calls and the return code are those of one of the possible runs, and each call went as it was answered at its moment |
| `Deployment.Delivery.DeployStep` | scripts/buildkite/profiled_delivery.py:613-616 | the same for the whole step, so that journal and exit status follow from the answers: a reservation is released last, and a release that raises turns any return code into exit status 2 |
| `DeploymentAnswers.RunIsDetermined` | scripts/buildkite/profiled_delivery.py:613-796 | two runs whose calls are answered alike, in whatever way the answers depend on what happened before, make the same calls and end with the same exit status |
| `DeploymentAnswers.AllGoesWell` | scripts/buildkite/profiled_delivery.py:613-796 | where every call succeeds, a compliant device is left alone, any other is written to, and the exit status is zero |
| `DeploymentOrder.RunIsOrderly` | scripts/buildkite/profiled_delivery.py:575-796 | call by call, what each one waits for: in every run none is made before what it needs has succeeded, so that nothing is published before its read-back |
| `DeploymentOrder.ChannelsAreIndependent` | scripts/buildkite/profiled_delivery.py:706-790 | after the command the report is always read; a verified report is both uploaded and stored, whatever became of the second attempt or of the upload; the chronology is tried exactly when the receipt was published |
| `DeploymentOrder.AnnotationIsHonest` | scripts/buildkite/profiled_delivery.py:770-796 | the last thing before the release is an annotation that tells of a failure exactly when a call had failed |
| `DeploymentRuns.CommandNeedsEverything` | scripts/buildkite/profiled_delivery.py:618-705 | at the moment the device command is issued it is for the authorised plan, nothing has failed, and every prerequisite has succeeded |
| `DeploymentRuns.PrerequisitesNamed` | scripts/buildkite/profiled_delivery.py:618-670 | those prerequisites named, all twenty-one: dependency, planning result, promotion, intent, authorisation, reservation, host trust, destination, both durable inputs with read-back, chronology and the validated first attempt |
| `DeploymentRuns.CallsOnce` | scripts/buildkite/profiled_delivery.py:681-717 | the device command runs at most once, exactly then one later attempt to observe follows, and a reservation is released exactly once |
| `DeploymentRuns.PostCaptureFollows` | scripts/buildkite/profiled_delivery.py:706-717 | the first call after the command is that attempt, expecting the revision the first attempt ended on |
| `DeploymentRuns.ZeroMeansNothingFailed` | scripts/buildkite/profiled_delivery.py:718-796 | the step exits with zero if and only if no call of the run failed, the command, the annotation and the release included |
| `DeploymentRuns.ZeroMeansComplete` | scripts/buildkite/profiled_delivery.py:718-796 | zero after a command means, each call named: zero exit, report read, verified and uploaded, record and envelope persisted and read back, receipt published, second attempt captured, persisted, loaded and successful, child persisted and read back, chronology published, annotation and release |
| `DeploymentRuns.ZeroWithoutCommandMeansComplete` | scripts/buildkite/profiled_delivery.py:575-611 | zero without a command means a compliant device whose record and envelope were persisted and read back, whose receipt was published, and an annotation |
| `DeploymentRuns.TwoProvesNoCommandExactly` | scripts/buildkite/profiled_delivery.py:613-706 | exit status 2 proves that no device command was issued if and only if the command did not itself exit with 2 and the release of the reservation does not raise |
| `DeploymentRuns.RaisedMeansThree` | scripts/buildkite/profiled_delivery.py:702-706 | an invocation that raised gives 3 and a non-zero exit is passed on, unless the release raises as well |
| `DeploymentRuns.DurableIsAttempted` | scripts/buildkite/profiled_delivery.py:719-749 | a verified report is made durable even when its upload failed |
| `DeploymentRuns.ReservationIsHeld` | scripts/buildkite/profiled_delivery.py:613-616 | a reservation once taken is let go as the very last thing of the run, and not before |
| `DeploymentRuns.CompliantNeverWrites` | scripts/buildkite/profiled_delivery.py:575-611 | the compliant path never issues the device command |
| `Deployment.Delivery.DeployCompliance` | scripts/buildkite/profiled_delivery.py:575-611 | the compliant path returns zero exactly when its evidence is durable and annotated, and 3 otherwise |
| `LiveInit.Host.Initialize` | src/network_change_delivery/managed_state_live.py:670-785 | from any disk, each later one is a single step from the one before, with somebody else possibly acting at any moment; there is a result if and only if no final root was there, the source is clean, both reads are valid and independent, every vertical is as expected at both and wanted in its own envelope, no acceptance fails, the rename works and nobody else's root comes first; a run that ends before the promotion with staging created makes exactly one attempt to remove it, and staging remains exactly if that failed; a result proves, per vertical, expected digest = D0 digest = digest of the second, independent read, and a proposal of no change exactly if that is the wanted digest |
| `LiveInit.AllOrNothing` | src/network_change_delivery/managed_state_live.py:670-785 | at every moment of such a history the final root is absent, somebody else's or exactly the four chains, and once there it is never replaced |
| `LiveInit.Host.Promote` | src/network_change_delivery/managed_state_live.py:582-604 | one step makes the complete root final, or nothing changes but what somebody else put there: when a final root exists, appears, or the call fails |
| `LiveInit.Host.Accept` | src/network_change_delivery/managed_state_live.py:692-711 | the staged root holds one generation-one chain per vertical exactly when no acceptance fails; only the staging root changes meanwhile, unless somebody else puts a final root in place |
| `LiveInit.FirstAcceptance` | src/network_change_delivery/managed_state_store.py:198-214 | adopting a valid state into an empty directory is accepted and gives a generation-one chain of one record |
| `LiveInit.LineOfRun` | src/network_change_delivery/managed_state_live.py:607-645 | each result line carries the equal digests, the evidence of two different read events, the record the store holds and the comparison with the wanted state, which proposes no change exactly if the digests are equal |
| `LiveInit.HeadIsAdopted` | src/network_change_delivery/managed_state_store.py:631-647 | in a root of adopted chains each resolved head is exactly the adopted record |
| `LiveInit.EnforceContinuity` | src/network_change_delivery/managed_state_live.py:498-516 | continuity passes exactly when every vertical's digest is as expected |
| `LiveInit.MismatchesExactly` | src/network_change_delivery/managed_state_live.py:498-516 | exactly the changed verticals are named |
| `LiveInit.MismatchPaths` | src/network_change_delivery/managed_state_live.py:498-516 | each with one to sixteen paths, those of the diff of its two payloads |
| `DiffPaths.ManagedDiffPaths` | src/network_change_delivery/managed_state_live.py:519-543 | the recursion over the shared list returns one to sixteen paths: the first sixteen of all differences, or the root |
| `DiffMeaning.ReportedPathsDiffer` | src/network_change_delivery/managed_state_live.py:519-543 | every reported path leads to unequal values in both trees, except the root reported when the trees are equal up to missing = null |
| `DiffMeaning.NoDiffsExactly` | src/network_change_delivery/managed_state_live.py:525-541 | no difference is found if and only if no lookup tells the trees apart |
| `DiffMeaning.DiffsCover` | src/network_change_delivery/managed_state_live.py:525-541 | wherever a lookup tells the trees apart, some difference lies there or above |
| `DiffMeaning.DiffsDoNotOverlap` | src/network_change_delivery/managed_state_live.py:525-541 | no difference is listed twice or lies under another |
| `DiffMeaning.DiffsAreOrdered` | src/network_change_delivery/managed_state_live.py:525-541 | the differences are in strictly increasing order of keys and indices |
| `DiffMeaning.ReportExactly` | src/network_change_delivery/managed_state_live.py:519-543 | the report is the least sixteen differences, or all of fewer, and the root alone exactly when no lookup tells the trees apart |
| `DiffMeaning.ReportRebuilds` | src/network_change_delivery/managed_state_live.py:519-543 | with fewer than sixteen paths, patching the left tree at them from the right gives the right tree up to missing = null |
| `JunosTransactions.ProfiledTransaction` | src/network_change_delivery/junos_adapter.py:507-529 | for any block of calls and any failures, the log of device calls and the error that leaves are those of a run as below |
| `JunosTransactions.RunIsSafe` | src/network_change_delivery/junos_adapter.py:324-339 | an attempted commit is never rolled back and no ordinary exception leaves after it; a candidate loaded and not attempted is rolled back last before the unlock, and a failed rollback raises unless a commit with wrong minutes was asked for |
| `JunosTransactions.RunCommits` | src/network_change_delivery/junos_adapter.py:375-431 | as many commits reach the device as the block asked for with five minutes, and each must be confirmed within five |
| `JunosTransactions.LeavesExactly` | src/network_change_delivery/junos_adapter.py:507-529 | what leaves a run, told from its log: a directory error; nothing else after a commit; otherwise a bounded error exactly if the block, the unlock or the close failed, or the rollback did and no commit with wrong minutes was asked for |
| `JunosTransactions.RollbackHiddenExactly` | src/network_change_delivery/junos_adapter.py:324-339 | of the runs whose log shows a failed rollback, exactly those leave without an error in which the block asked for a commit with wrong minutes, the block itself raised nothing, and unlock, close and directory removal went well |
| `JunosTransactions.RollbackIsHidden` | src/network_change_delivery/junos_adapter.py:324-339 | one such run: load, a commit asked for with wrong minutes, a failed rollback, no error |
| `JunosTransactions.NothingEscapesAfterAttempt` | src/network_change_delivery/junos_adapter.py:524-529 | of a run in which a commit reached the device nothing leaves but a failure to remove the temporary directory |
| `JunosTransactions.DirectoryErrorEscapes` | src/network_change_delivery/junos_adapter.py:507-529 | one run in which it does leave, after a confirmed commit |
| `JunosTransactions.JunosTransaction.Prepare` | src/network_change_delivery/junos_adapter.py:341-373 | it succeeds exactly when the candidate was loaded, checked and shown by two reads to be the approved change, and on failure the log tells at which of these steps it stopped; no commit is made |
| `JunosTransactions.JunosTransaction.CommitConfirmed` | src/network_change_delivery/junos_adapter.py:375-431 | five minutes: one commit that must be confirmed, SUCCEEDED for a reply of true, AMBIGUOUS for a lost connection or another exception, FAILED for any other answer; any other number of minutes: no call at all and FAILED |
| `JunosTransactions.JunosTransaction.Enter` | src/network_change_delivery/junos_adapter.py:303-322 | entering holds the lock on a clean candidate; a dirty one is unlocked and refused |
| `JunosTransactions.JunosTransaction.Exit` | src/network_change_delivery/junos_adapter.py:324-339 | the rollback when one is due, then always the unlock, and which failures are raised |
| `JunosTransactions.ConfirmProfiled` | src/network_change_delivery/junos_adapter.py:531-592 | at most one confirming commit; SUCCEEDED exactly when it returned true, AMBIGUOUS exactly when the connection was lost or another exception came of it, FAILED exactly for another answer or no commit, whatever cleanup does |
| `Fleet.PlanMeetsSpecification` | src/network_change_delivery/fleet.py:145-174 | for distinct devices and wave size at least 1: one least-key canary per deployable platform in platform order, waves in key order and full but for the last, together every deployable member exactly once |
| `Fleet.CohortsAreForced` | src/network_change_delivery/fleet.py:145-174 | the computed cohorts are the only ones that meet this specification |
| `FleetPlans.ListingDoesNotMatter` | src/network_change_delivery/fleet.py:140-194 | every order of listing the same fleet gives the same plan |
| `FleetPlans.ValidatorAgrees` | src/network_change_delivery/models.py:404-497 | a computed plan passes the plan validator exactly when targets, devices and interfaces are each unique and something is deployable |
| `FleetValidator.SameCohorts` | src/network_change_delivery/models.py:471-495 | canaries and waves recomputed by the validator over sets of identities, in whatever order the sets are iterated, are those the planner computed over members |
| `FleetPlans.PlanFleet` | src/network_change_delivery/fleet.py:115-199 | one failing device fails the fleet; a compliant fleet has no plan; any other gets the one plan unless an identity repeats |
| `FleetPlans.PlanIsAsAsked` | src/network_change_delivery/fleet.py:145-194 | a plan has the members listed, in key order, cohorts that meet the specification at the size asked for, and that size and description |
| `FleetPreflight.SameMembershipIsPairing` | src/network_change_delivery/fleet.py:228-244 | equal sets and equal lengths hold exactly when the fresh selection is a rearrangement of the frozen members, without repetition |
| `FleetPreflight.EveryMemberHasOnePartner` | src/network_change_delivery/fleet.py:228-244 | each frozen member then has exactly one partner in the selection |
| `FleetPreflight.CheckFleet` | src/network_change_delivery/fleet.py:228-303 | with the pairing: one result per member in plan order with what was read of it, and success exactly when every member passes; without the pairing: failure, and no member is looked at |
| `FleetPreflight.PreflightFleet` | src/network_change_delivery/fleet.py:202-303 | it succeeds if and only if the plan verifies, an approval that is given names its digest, the pairing holds and every member is as planned: a deployable one signed, present, not guarded and with the description and hostname its child plan found, a compliant one at the desired description |
| `FleetPreflight.ValidateDesiredState` | src/network_change_delivery/fleet.py:317-386 | final validation succeeds if and only if the pairing holds and every member is observed at the desired description |
| `Pagination.Client.GetAll` | src/network_change_delivery/inventory.py:129-161 | ends whatever is answered, having made at most max(1, count) reads, each at the offset equal to the results so far and each but the last answered by a non-empty page that announces another; returns only exactly count items; fails only for the defect of its last answer; where every answer is a page of one population it returns that population up to 10,000, and refuses a larger one |
| `Pagination.JudgesExactly` | src/network_change_delivery/inventory.py:136-161 | each defect of an answer and the error it gives: none, malformed, a first count over 10,000, a changed count, an end that comes too early or too late, an invalid continuation |
| `Pagination.PagesCount` | src/network_change_delivery/inventory.py:136-161 | pages that go on are non-empty, so there are at most as many as results |
| `Observations.PersistProtectedObservation` | src/network_change_delivery/buildkite_configuration_observation.py:370-453 | a record is stored exactly when both attempts are admissible, the parent is available and the record is not dated before its evidence; every stored record brackets the delivery in time and chains the revisions on one path |
| `Observations.ProtectedRecordValidExactly` | src/network_change_delivery/configuration_observation.py:241-288 | the record built from admissible attempts passes the validator if and only if it is not dated before the second attempt ends |
| `Observations.OverallStatusAgrees` | src/network_change_delivery/buildkite_configuration_observation.py:357-367 | the computed overall status is the one the validator demands, for any two attempts |
| `Observations.ChainOfContents` | src/network_change_delivery/configuration_observation.py:145-192 | the second attempt is UNCHANGED exactly when its content is what the first attempt ended on; a change was collected after the first attempt completed |
| `Observations.DurableSuccessExactly` | src/network_change_delivery/buildkite_configuration_observation.py:143-161 | when a settled collection passes the attempt validator: the baseline not later than the request, completion not before it, and for a change different content in one identity format collected no earlier than the request |
| `Observations.BindCollection` | src/network_change_delivery/oxidized_observation.py:71-166 | the first decisive look at the history settles a collection, dated by the clock once that has reached its evidence; contradiction is told exactly for a new revision dated outside five seconds of the job, or evidence more than five seconds ahead of the clock or not reached by one sleep; no change is reported only when every look of the window showed the same revision |
| `Observations.SameContentIsRejected` | src/network_change_delivery/buildkite_configuration_observation.py:143-161 | a new commit with unchanged content settles as a change and is then rejected |
| `Observations.EarlyCommitIsRejected` | src/network_change_delivery/buildkite_configuration_observation.py:143-161 | a commit within the clock tolerance but before the request settles and is then rejected |
| `Observations.DurableFailureExactly` | src/network_change_delivery/buildkite_configuration_observation.py:164-187 | when a reviewed failure becomes durable evidence, and with which status and category for each outcome |
| `Observations.UnsettledExactly` | src/network_change_delivery/buildkite_configuration_observation.py:190-230 | a contradiction and a lost history become evidence exactly when baseline, request and completion are in order |
| `Observations.CaptureAttempt` | src/network_change_delivery/buildkite_configuration_observation.py:190-230 | the attempt returned is valid and exactly the one the deciding look shows: settled and dated, contradicted, or without a history; with a baseline there is none exactly when that attempt is invalid |

## Left out

- File owners, modes, symbolic links and path resolution: private directories are assumed.
- Hashing, JSON encoding and UUID text: digests are one-to-one, canonical text is a bijection, identifiers are numbers in the order of their names.
- AcceptanceStore.ManagedStateStore.PersistAcceptance: the refusal of records over 256 KiB, a one-branch check; the corresponding bounds of the audit store are modelled.
- DiffPaths.ManagedDiffPaths: leaves are compared as values of one type; Python holds 1, 1.0 and True equal.
- Rendering of diff paths as text, where keys may contain dots or brackets.
- KeyboardInterrupt and other exceptions that are not ordinary ones.
- AuditFiles.Correlates: of the comparison of an execution record with its plan only the plan's digest and the outcome are kept, because that helper is opaque here.
- Deployment.Delivery.DeployStep: a write to standard error that itself raises, after an annotation that failed, is a further way to exit status 2 and is not modelled.
- DeploymentRuns.TwoProvesNoCommandExactly: likewise.
- AcceptanceStore.ManagedStateStore.Records: a scan is one step here; `AcceptanceRuns.TornScan` says what holds when it is not.
- PowerLoss.MayName: the syncs that follow the removal of a temporary name or of a link taken back are not counted as syncs, so more may come back than in fact can.
- The scans of audit records and envelopes: the same loop and bounds as `ObservationStore.IterObservationRecords`.
- AuditRuns.AuditStore.PublishNew: a sync failure after the link is excluded here; `Publication.Directory.PublishNew` models it.
- AuditRuns.AuditStore.PersistArtifact: likewise.
- AuditRuns.AuditStore.PersistRecord: likewise, and the record's own rules on targets, credentials and kinds are one yes-or-no field.
- AuditRuns.AuditStore.PersistEnvelope: likewise.
- ObservationStore.ConfigurationObservationStore.PersistObservationRecord: likewise; of the observation record its identity, digest, size, parent and target are kept, and its own validator is one yes-or-no field.
- ReadinessLoop.LocalTerraformOperations.ProbeAll: evidence digest, address, service and port of a READY record are left out; its name, verdict, elapsed time, state and boot time are kept.
- ReadinessLoop.LocalTerraformOperations.RecordTimedOut: address, service and port of a TIMED_OUT record are left out.
- JunosTransactions.JunosTransaction.Prepare: the text matching of the candidate diff is one answer, approved or not.
- JunosTransactions.ProfiledTransaction: loading is all or nothing, as the library reports it.
- Observations.CaptureAttempt: the looks at the history and the clock readings are given, so how many looks fit into ten seconds is not modelled.
- Observations.PersistProtectedObservation: the correlation with the parent's plan and the storing are answers, and the node's identity is the path of its revisions.
- Observations.ProtectedRecordValidExactly: the validator's check of the node against the target is left out.
- FleetPlans.ValidPlan: the agreement of each child plan with its frozen member is kept only as its signature and preconditions.
- FleetPlans.ValidatorAgrees: likewise.
- FleetPlans.PlanFleet: resolving, credentials and the safety checks of one device are one answer, a frozen member or a failure.
- The profiled chronology store, rollout delivery, planning, promotion and evidence steps of the delivery script.
- HTTP, OpenBao, CML, Buildkite, Ansible and Git calls, command lines and annotations' text.
- NetBox migrations, assurance evaluation, the lifecycle reconciler and the ephemeral staging lifecycle.
