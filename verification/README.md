# Verified model of a PDF and QR product service and its operations scripts

The repository serves product PDFs behind QR codes. Most of its hard code is about operations: backups that are
published in two halves, a retention job that deletes shared objects, staged restores, proxy-last rollbacks, and a
review gate. This project models that code in Dafny and proves what it keeps through crashes, retries and interleavings,
together with the algorithmic pieces of the web application.

## How it is modelled

* **State.** A remote, a checkpoint directory or a group of small files is a value (a set of keys, a map, a record of
  optional files). A class with the source's fields holds it, and its methods change it one write at a time.
* **Crashes.** An operation is the list of writes it makes, or a machine with one write or delete per step. A crash
  keeps any prefix. Methods carry a budget of writes after which the process dies, and their contracts say that the
  new state is exactly the prefix the budget allowed. Theorems then speak about every list of attempts.
* **Hosts and clocks.** What a host, the network, encryption or a clock answers is a parameter over which the theorems
  quantify: an oracle that may raise at every call, a fresh ciphertext for each encryption, any clock readings.
* **Digests.** Nothing assumes that a digest is injective. Theorems read "equal, or two named values of
  the run or chain in question differ and have one digest".
* **Methods and specification functions.** Where the source loops or writes, the model is a method whose contract equates
  its result or its new state with a specification function, and the lemmas prove what that function guarantees.

| file | what it covers |
|---|---|
| `RetentionPolicy`, `Retention`, `RetentionRuns`, `RetentionRotate` | the retention policy, the rotation as a step machine, runs with crashes, and the job itself |
| `CasPublication`, `CasHazards` | publication of one content-addressed object in two halves, and where its guarantee ends |
| `FinalizeKeys` | the three computations of a point's key set, on real key strings |
| `Uploads`, `UploadServer` | the upload and restore transactions, interleaved |
| `RollbackEngine`, `RollbackRun` | a monitor of the host calls, and the proxy-last engine |
| `Publication`, `RollbackTimer`, `JsonLine`, `AuditChain` | publication state, rollback clock, and the audit log as text |
| `RestoreStages` | the restore stage machine |
| `ReviewGate` | the review gate over a commit chain |
| `Worksheet`, `ProductImport`, `Text` | the streaming worksheet reader, validation, import |
| `ProductSearch`, `QrImage`, `LoginBackoff` | LIKE escaping, QR pixels and label lines, login backoff |

## Findings

These are statements that the code does not meet in full, each with the exact condition under which it does.

* A backup whose inventory holds two files of equal content is rejected by its own manifest check and by the retention
  record, because the two share one object key (`FinalizeKeys.ManifestAcceptedIff`, `FinalizeKeys.RecordAgreesIff`).
  The docstrings speak of deduplication; the check counts the shared key as a duplicate.
* After a rotation that died between deleting a ciphertext and its metadata, every backup of that content fails until a
  rotation resumes, unless its replacement ciphertext has the old size and digest (`CasHazards.HalfDeletedPairBlocks`);
  a checkpoint left half removed blocks it as well (`CasPublication.DeletedPairRecoversIff`,
  `CasPublication.CleanupCanLeaveHalf`).
* A call that dies while the source file has changed can leave a wrong ciphertext in the checkpoint, which the next call
  publishes under the old key (`CasHazards.AdoptedCheckpointIff`, `CasHazards.ChangedSourceIsPublished`).
* A proof for a journaled point that thereby becomes the newest proved one stops rotations until a newer point is proved
  (`RetentionRuns.ProvingAJournaledPoint`, `RetentionRuns.NewerProofLiftsTheBlock`), and a proof for a point whose
  manifest is gone stops them altogether.
* An audit event that brings a key named `event_sha256`, or whose keys or texts hold U+0085, U+2028 or U+2029, makes the
  log refuse for good: the encoding leaves these characters as they are, and the reader splits lines at them. The
  operator name is free text and goes into every event of the engine (`AuditChain.AppendExtendsIff`,
  `AuditChain.SeparatorInOperatorRefuses`). So does a crash between the line and the anchor
  (`AuditChain.InterruptedAppendRefuses`). A crash inside a publication or clock update is equally final
  (`Publication.RefusalIsPermanent`, `RollbackTimer.RefusedClockIsFrozen`).
* After a completed rollback, a later reading of the elapsed time can push the reported time above the limit while the
  report still says that it passed (`RollbackTimer.LateReadingSpoilsTheReportIff`). A crash between a negative verdict
  and its alert loses the alert (`RollbackTimer.AlertIsLost`).
* The quiet zone is one pixel short of four modules on the left and at the top exactly for symbols with 33 modules
  (`QrImage.QuietZoneHoldsIff`, `QrImage.OnlyVersionFourFallsShort`).
* An honest comparison is reported as omitting a path when the chain removes a file and adds it again unchanged, or when
  a code commit adds an evidence file that an evidence-only commit removes (`ReviewGate.HonestCompareIsBlamedIff`,
  `ReviewGate.RestoredPathIsBlamed`, `ReviewGate.RemovedEvidenceIsBlamed`).
* The settings allow a backoff longer than the window; the block is then forgotten early (`LoginBackoff.BlockIsKeptIff`).
* Deleting the whole audit log file goes unnoticed (`AuditChain.MissingLogForgets`).

## Assumptions

* Points are completed and proofs are added only between rotations, and only for points that have no journal; the clock
  that rotations read does not go back; the time zone is a fixed offset of eight hours.
* The bytes behind a digest do not change while they are encrypted (dropped in `CasHazards.AdoptedCheckpointIff`).
* A remote holds no keys but those that the modelled code writes; keys that an abandoned backup left behind are tracked
  as orphans and never deleted.

* A reader of audit lines takes back what was written and takes no proper piece of it (`JsonLine.ReadersExist`, `AuditChain.FormatsExist`);
  it may accept other spellings of an object as well. Digests are written without line separators.

## Model

| member | source | states |
|---|---|---|
| RetentionPolicy.ExpiredIffPastEveryCutoff | scripts/backup_recovery/model.py:546-590 | with the daily, weekly and monthly rules of the contract, a point is expired exactly when it is past three cut-off instants that are computed from the calendar, not from day counts |
| RetentionPolicy.ReasonsFollowTheCutoffs | scripts/backup_recovery/model.py:579-589 | each reason is found exactly before its own cut-off |
| RetentionPolicy.MonthIndexAtLeast | scripts/backup_recovery/model.py:546-556 | a day lies in or after a month exactly when it is not before that month's first day, which ties the calendar search to the month lengths |
| RetentionPolicy.MonthsAreGregorian | scripts/backup_recovery/model.py:546-556 | the month lengths, counted from the epoch in either direction, give the Gregorian calendar in closed form |
| RetentionPolicy.TagsFollowTheLocalDate | scripts/backup_recovery/model.py:546-556 | an instant is tagged by its civil date eight hours ahead of UTC: always with the day, with the week on the Mondays, of which 3 August 2026 is one, and with the month on its first day |
| RetentionPolicy.CutoffsOnlyAdvance | scripts/backup_recovery/model.py:559-590 | once expired, a point stays expired as time passes |
| RetentionPolicy.BusinessExpiryIsPermanent | scripts/backup_recovery/model.py:559-590 | the shipped contract meets the permanence condition that the rotation theorems need |
| RetentionRotate.RetentionDecisions | scripts/backup_recovery/model.py:559-590 | the loop over the points decides each identity by the policy applied to its last record |
| RetentionRotate.RemoteStore.ValidatedCompletionRecords | scripts/retention/rotate.py:117-161 | succeeds exactly when every completion marker is valid and has its authenticated manifest, and returns exactly those records |
| RetentionRotate.RemoteStore.ValidatedJournalRecords | scripts/retention/rotate.py:164-210 | succeeds exactly when every journal equals its manifest record or is a bare final one, and returns both groups |
| RetentionRotate.RemoteStore.ValidatedVerifiedIds | scripts/retention/rotate.py:213-247 | succeeds exactly when every verified marker is bound to a known record, and returns all their identities |
| RetentionRotate.RemoteStore.NewestVerified | scripts/retention/rotate.py:347-360 | picks the verified point with the greatest freeze time and then the greatest identity |
| RetentionRotate.RemoteStore.Inspect | scripts/retention/rotate.py:318-387 | all reads and checks before the first write accept exactly the remotes described by the independent predicate Accepts, and yield the policy's decisions |
| RetentionRotate.RemoteStore.PublishJournals | scripts/retention/rotate.py:395-403 | publishing the journals is a run of the step machine, however many of them were written |
| RetentionRotate.RemoteStore.DeletePoint | scripts/retention/rotate.py:405-421 | deleting one point target by target is a run of the step machine that may stop anywhere |
| RetentionRotate.RemoteStore.Rotate | scripts/retention/rotate.py:250-427 | the whole job: it refuses exactly when the checks fail and then writes nothing; otherwise the remote is reached by some number of machine steps; a report names each point as kept or as a target by its reasons and the newest proof alone, also in a dry run, and after a normal return of a real run an unjournaled complete point is still complete exactly when its decision was to keep it |
| RetentionRotate.BusinessRotationRemoves | scripts/backup_recovery/model.py:559-590 | under the shipped contract a rotated point is gone exactly when it is past every cut-off and was not the newest verified one |
| RetentionRotate.DecisionsAreReported | scripts/retention/rotate.py:372-427 | the reported decisions and targets of any listing order fit the remote: kept exactly with a reason or as the newest verified point, with those reasons, and a target exactly when not kept |
| Retention.DeletionOrder | scripts/retention/rotate.py:405-421 | whatever has been deleted so far, a point's completion marker went before its verified marker, both went before its manifest, the manifest went before the journal, and only doomed points lost any of them |
| Retention.BackupRecordIsValid | scripts/backup_recovery/model.py:356-421 | a record with its own three keys, the tags of its freeze and any content-addressed keys passes the record check |
| Retention.ResidueInv | scripts/retention/rotate.py:382-427 | wherever a rotation stops, the remote that is left satisfies the whole invariant |
| Retention.NextKeepsInFlight | scripts/retention/rotate.py:382-427 | every single publish or delete keeps the account of what was journaled and what was deleted |
| RetentionRuns.RotationIsSafe | scripts/retention/rotate.py:347-427 | a rotation cut off after any number of steps leaves a sound remote, and a finished one leaves no journal, only kept points whole, and a key of a removed point exactly when some kept point names it |
| RetentionRuns.FinishedIsRotated | scripts/retention/rotate.py:382-427 | a finished rotation, from any remote it accepts, leaves no journal; a complete point without a journal stays, with its marker, manifest and objects, exactly when the contract gives a reason for it or it is the newest verified point, and of every other point marker, proof and manifest are gone |
| RetentionRuns.EveryRunIsSafe | scripts/retention/rotate.py:347-427 | over every run of completions, proofs, stray uploads, clock moves and rotations that crash anywhere: complete unjournaled points have every object, the newest verified point is one of them, and nothing but orphans leaks |
| RetentionRuns.NextRotationAccepts | scripts/retention/rotate.py:117-247 | from every such state the next rotation passes all of its own checks |
| RetentionRuns.RunsExist | scripts/retention/rotate.py:347-427 | such runs exist: a proved point is kept by a rotation however old it is, and an unproved expired one is journaled by the first step |
| RetentionRuns.LastStepIsClean | scripts/retention/rotate.py:382-427 | the last step of a rotation in any run leaves the clean result |
| RetentionRuns.LastStepRemovesTheExpired | scripts/retention/rotate.py:347-427 | in any run, the last step of a rotation leaves exactly the points that had a reason or were the newest verified one |
| RetentionRuns.NewestSurvivesEveryEvent | scripts/retention/rotate.py:347-427 | no single event journals, deletes or damages the point that is newest verified when it happens |
| RetentionRuns.ProtectedIsNewest | scripts/retention/rotate.py:347-364 | during a rotation the protected point remains the newest verified one |
| RetentionRuns.ProvingAJournaledPoint | scripts/retention/rotate.py:213-364 | whatever proof arrives between rotations, also for a point whose marker or manifest is gone already, the next rotation accepts the remote exactly when the proof is bound to the manifest of a complete or journaled point and a journaled point is not thereby the newest proved one |
| RetentionRuns.NewerProofLiftsTheBlock | scripts/retention/rotate.py:347-364 | once a journaled point was proved, a proof for another point lets rotations go on exactly when the journaled point is no longer the newest proved one |
| RetentionRuns.NextUnderway | scripts/retention/rotate.py:382-427 | an unfinished rotation stays sound through its next step |
| CasPublication.Publisher.StageCheckpoint | scripts/backup_recovery/backup.py:154-206 | reuse, complete or create the local checkpoint; the slot is the prefix of the planned writes that the budget allows |
| CasPublication.Publisher.UploadPair | scripts/backup_recovery/backup.py:208-232 | upload what is missing, ciphertext first, and then remove the checkpoint |
| CasPublication.Publisher.PublishFileObject | scripts/backup_recovery/backup.py:123-232 | the whole call with its conflicts and its possible death at any write |
| CasPublication.CallIsGood | scripts/backup_recovery/backup.py:123-232 | from a consistent slot an undisturbed call succeeds, completes the pair, removes the checkpoint and reports the identity in the remote metadata |
| CasPublication.EveryPrefixIsGood | scripts/backup_recovery/backup.py:123-232 | every prefix of a call's writes keeps the slot consistent and replaces no remote object |
| CasPublication.CallsAlwaysRecover | scripts/backup_recovery/backup.py:123-232 | after any number of calls with fresh ciphertexts, each cut off anywhere, remote metadata implies a matching remote ciphertext and the next undisturbed call succeeds |
| CasPublication.IdentityIsStable | scripts/backup_recovery/backup.py:123-232 | the ciphertext that first reached the remote is the one that every later call reports |
| CasHazards.HalfDeletedPairBlocks | scripts/backup_recovery/backup.py:189-226 | a rotation that was cut off between ciphertext and metadata: after any calls, each cut off anywhere, and from any consistent checkpoint, an undisturbed call succeeds exactly when the ciphertext that is staged, or else the one the first call makes, has the deleted one's size and digest, and never from a checkpoint with metadata alone |
| CasPublication.DeletedPairRecoversIff | scripts/backup_recovery/backup.py:164-206 | once both are deleted, a call succeeds exactly when the checkpoint is not metadata alone |
| CasPublication.CleanupCanLeaveHalf | scripts/backup_recovery/backup.py:140-144 | a crash during clean-up can leave metadata alone in the checkpoint |
| CasPublication.MetadataAlwaysDescribes | scripts/backup_recovery/backup.py:123-232 | from every slot whatever, a call that dies anywhere replaces no remote object and publishes metadata only when it describes the ciphertext that is there, and a call that succeeds leaves two objects that agree on the fingerprint it reports |
| CasHazards.AdoptedCheckpointIff | scripts/backup_recovery/backup.py:154-206 | over every run of calls, each with any source and cut off anywhere, the published object matches its key exactly when the source was right in the first call that left a ciphertext behind, which is read off the sources and the crash points alone |
| CasHazards.VisitKeepsInPlay | scripts/backup_recovery/backup.py:123-232 | whatever the source holds and wherever a call dies, the one ciphertext in play stays in play and all metadata go on describing it |
| CasHazards.ChangedSourceIsPublished | scripts/backup_recovery/backup.py:175-197 | a call that dies with a changed source staged makes the next undisturbed call publish the wrong content and report success |
| FinalizeKeys.CasMatches | scripts/backup_recovery/model.py:195-209 | the key pattern recovers digest and suffix from every content-addressed key |
| FinalizeKeys.CasKeyInjective | scripts/backup_recovery/backup.py:73-77 | different digests have different keys |
| FinalizeKeys.CasOutsidePoint | scripts/backup_recovery/backup.py:70-77 | no content-addressed key lies under a point's root |
| FinalizeKeys.CompletionKeysMean | scripts/backup_recovery/backup.py:407-491 | the list that finalize computes is the point's three keys and two keys for each distinct content |
| FinalizeKeys.ObjectsCollideIff | scripts/backup_recovery/backup.py:407-450 | two manifest objects share a key exactly when they are files of equal content, and never share a name |
| FinalizeKeys.ManifestRecordsMeasurements | scripts/backup_recovery/backup.py:407-450 | looked up by name, the manifest gives for the database, the config and each file its key and the sizes and digests that were measured |
| FinalizeKeys.TimesKeepTheirOrder | scripts/backup_recovery/backup.py:425-491 | clock readings taken in order are stored in order, and the marker repeats the freeze time, the identifiers and the manifest ciphertext |
| FinalizeKeys.ManifestAcceptedIff | scripts/backup_recovery/model.py:424-508 | the manifest that finalize writes passes the manifest check exactly when no two files have equal content, the three clock readings differ and the key identifier is not blank |
| FinalizeKeys.ValidManifestNamesAll | scripts/backup_recovery/model.py:485-508 | an accepted manifest names the database, the config and each of its files exactly once |
| FinalizeKeys.EscapingNamesAreRefused | scripts/backup_recovery/model.py:485-503 | a manifest is refused with an object whose key is absolute, empty or climbs out, whose sizes are negative, whose digests have another length or whose point is another |
| FinalizeKeys.RecordAgreesIff | scripts/backup_recovery/model.py:356-421 | the retention record accepts it under the same condition and a well-formed key identifier, and then the three key sets coincide |
| FinalizeKeys.OrdinaryBackupIsAccepted | scripts/backup_recovery/model.py:356-508 | a concrete backup of one file meets every condition and is accepted by all three computations |
| FinalizeKeys.MarkerAcceptedIff | scripts/backup_recovery/model.py:117-209 | the completion marker with its sorted key list is accepted exactly when the key identifier is well formed and the verification is later than the freeze, and the list names every key of the point once |
| FinalizeKeys.AcceptedMarkersArePaired | scripts/backup_recovery/model.py:195-209 | an accepted marker names both objects of a content or neither |
| FinalizeKeys.CheckObjects | scripts/backup_recovery/model.py:485-503 | the loop accepts exactly the lists of valid objects without repeated names or keys |
| FinalizeKeys.CollectKeys | scripts/backup_recovery/model.py:390-410 | the loop accepts exactly the objects whose key is the expected one, and collects all keys |
| FinalizeKeys.RetentionKeys | scripts/backup_recovery/model.py:356-421 | the retention record's keys after every check of the manifest |
| Uploads.PathsAreDistinct | src/product_pdf_qr/domains/storage/service.py:377-382 | different digests have different formal paths |
| Uploads.EventKeepsInv | src/product_pdf_qr/domains/version/service.py:184-474 | every step of every transaction, commit, rollback and cancellation keeps the database and the file store sound |
| Uploads.EveryInterleavingIsSound | src/product_pdf_qr/domains/version/service.py:184-474 | after any interleaving each product's versions are numbered 1 to n, its pointer is null exactly when n is 0 and otherwise its own version, and every file row is backed by its content |
| Uploads.CommitIsAtomic | src/product_pdf_qr/domains/version/service.py:274-474 | a commit has the effect of the whole upload at that moment: the number, the duplicate check and the file row found earlier still hold |
| Uploads.HistoryIsAppendOnly | src/product_pdf_qr/domains/version/service.py:330-474 | only a commit or a new product changes the tables, committed rows never change, and formal files are only added |
| Uploads.PublicReadsNeverFail | src/product_pdf_qr/domains/public/service.py:70-112 | the error branches of public resolution are unreachable: a read serves the current version's content, or says why there is none |
| Uploads.DuplicateIffServed | src/product_pdf_qr/domains/version/service.py:311-342 | an upload is refused as a duplicate exactly when the public read serves that content, of that size, already |
| Uploads.PointersResolve | src/product_pdf_qr/domains/version/service.py:311-324 | the error branch for a dangling current version is unreachable |
| Uploads.ReuseFailsOnlyOnCollision | src/product_pdf_qr/domains/version/service.py:346-377 | after a conflicting insert the committed row is found, and it is reused exactly when the sizes agree |
| Uploads.RestoreFindsItsOrigin | src/product_pdf_qr/domains/version/service.py:184-271 | a restore under the row lock can repoint exactly when the version exists and belongs to the product |
| Uploads.RestoreIsAtomic | src/product_pdf_qr/domains/version/service.py:235-242 | the commit of a restore changes exactly one thing, the pointer of its product, which names the version asked for |
| Uploads.RestoredVersionIsServed | src/product_pdf_qr/domains/version/service.py:184-271 | after it the public read serves that version's own file, whose content is stored under its digest |
| Uploads.NoDeadlock | src/product_pdf_qr/domains/version/service.py:184-474 | while any transaction is open some transaction can proceed |
| UploadServer.Server.LockAndNumber | src/product_pdf_qr/domains/version/service.py:290-342 | lock the product, look up the administrator, refuse an equal current file, choose the next number; an error is borne out by the state in which it is returned, and a cancellation can strike at each await |
| UploadServer.Server.PublishAndFile | src/product_pdf_qr/domains/version/service.py:344-377 | publish the content under its digest and find or insert its row, while other transactions run; a failure means that the committed row of that digest has another size, and a cancellation that one was asked for here or that the insert waits for another transaction |
| UploadServer.Server.AppendAndRepoint | src/product_pdf_qr/domains/version/service.py:379-440 | append the version, move the pointer and commit, or roll back with unchanged tables exactly when a cancellation strikes at one of these awaits |
| UploadServer.Server.UploadPdf | src/product_pdf_qr/domains/version/service.py:274-474 | the whole coroutine with other transactions and a possible cancellation at every await: it ends in exactly one commit of an atomic upload, never after a cancellation, or in a rollback that leaves the tables as they were at the decision, with a reason that is true of that state |
| UploadServer.Server.LockAndRepoint | src/product_pdf_qr/domains/version/service.py:194-243 | lock the product, look for the version among its own and move the pointer, with other transactions and a possible cancellation at every await; a refusal is borne out by the state in which it is returned |
| UploadServer.Server.RestorePdfVersion | src/product_pdf_qr/domains/version/service.py:184-271 | the whole restore: it succeeds exactly when at the decision the product exists, the version is its own, nobody else holds the row and no cancellation struck; then the pointer alone moved, the number of the version is returned and the public read serves its file; otherwise nothing changed |
| RollbackEngine.WatchReflects | scripts/deploy_rollback/engine.py:221-365 | each field of the monitor stands for a fact about the log of calls since the last application start |
| RollbackEngine.QuietMeansJustified | scripts/deploy_rollback/engine.py:221-340 | a monitor that never complained proves, about the log alone, that each proxy start followed stopped-proxy evidence, a passed validation, an authorization and an equal watermark since the last application start |
| RollbackRun.Engine.IsolateAndSwitch | scripts/deploy_rollback/engine.py:235-250 | stop the proxy, stop the application, move to the stable version; it succeeds exactly when every answer was good, with exactly the fixed calls, and the application counts as touched exactly when a stop of it was carried out |
| RollbackRun.Engine.ProveStable | scripts/deploy_rollback/engine.py:251-264 | validation and watermark evidence for the stable application, without changing it; it succeeds exactly when both watermarks are the declared one, validation says yes and nothing raises |
| RollbackRun.Engine.OpenStable | scripts/deploy_rollback/engine.py:265-306 | the proxy is started last, and the operation completes exactly when readiness and the clock say yes and nothing raises |
| RollbackRun.Engine.BringBack | scripts/deploy_rollback/engine.py:315-321 | it succeeds exactly when nothing raises and the proxy is seen stopped; then the candidate was started under its own identity and the watermark read before the stop is the reference |
| RollbackRun.Engine.RollForward | scripts/deploy_rollback/engine.py:313-346 | the candidate is brought back, proved and opened exactly when the host answers well and repeats its own watermark, with exactly the fixed calls |
| RollbackRun.Engine.OpenCandidate | scripts/deploy_rollback/engine.py:328-346 | the candidate's proxy is started only with its own evidence, and re-isolated when readiness fails; it succeeds exactly when every answer was good |
| RollbackRun.Engine.Recover | scripts/deploy_rollback/engine.py:307-365 | whatever the host does in the handler, the engine ends with a stop attempt last, or the candidate serving with its own evidence, or the proxy never touched; once the application was touched, the candidate serves in the end exactly when after the re-isolation nothing raised, every question was answered yes and the watermark was repeated |
| RollbackRun.Engine.SwitchApp | scripts/deploy_rollback/engine.py:221-365 | for every host: it returns, with the stable application serving, exactly when no reply raised, every question was answered yes and every watermark read was the declared one, and then it made exactly the fixed calls; otherwise it raises after a safe failure; if the host answers well after the first bad answer to a touched application, the candidate serves; every proxy start is justified |
| RollbackRun.Engine.Run | scripts/deploy_rollback/engine.py:152-219 | it rolls back exactly on a compatible path two whose action was not raced, with only good answers, and hands off to the restore exactly on such a path one; a failed switch on a host that then answers well ends with the candidate serving; otherwise only the clock and the audit log are used |
| Publication.PublicationState.Prepare | scripts/deploy_rollback/model.py:888-912 | exclusive creates of document and seal with undo on failure; the files are the prefix that the budget allows |
| Publication.PublicationState.Advance | scripts/deploy_rollback/model.py:970-1000 | one stage at a time, the marker before everything else at the cutover |
| Publication.MarkerForbidsPathOne | scripts/deploy_rollback/model.py:1008-1031 | with a marker on disk, whole or torn, the restore path is never chosen |
| Publication.PathOneIff | scripts/deploy_rollback/model.py:1008-1031 | the restore path is chosen exactly when the state can be read, there is no marker, the proxy stayed isolated, and the current data have the digest of the stored baseline |
| Publication.PreparationAllowsPathOne | scripts/deploy_rollback/model.py:888-1031 | a completed preparation leads to the restore path exactly with an isolated proxy and unchanged data |
| Publication.AdvanceKeepsPathOne | scripts/deploy_rollback/model.py:970-1031 | a completed advance short of the cutover changes nothing about that choice |
| Publication.PathOneRestoresPreparedData | scripts/deploy_rollback/model.py:888-1031 | over every run from nothing, the restore path is only chosen over data with the digest that some preparation of that run declared |
| Publication.CutoverIsIrreversible | scripts/deploy_rollback/model.py:888-1031 | once the proxy could have been started or a marker exists, no sequence of attempts, crashes and write errors makes the restore path possible |
| Publication.AuthorizationNeedsMarker | scripts/deploy_rollback/model.py:1002-1005 | the proxy is authorized only by a whole marker of this release and the complete stage history |
| Publication.CutoverAuthorizes | scripts/deploy_rollback/model.py:970-1005 | a completed operation authorizes the proxy exactly when it is the advance to the cutover |
| Publication.AdvanceIsAllOrRefused | scripts/deploy_rollback/model.py:914-1000 | an advance that is cut off reads as the old stage, as the new one, or refuses, unless two documents collide |
| Publication.FailedCutoverIsUndone | scripts/deploy_rollback/model.py:214-232 | a write error while the marker is created leaves the old stage readable |
| Publication.RefusalIsPermanent | scripts/deploy_rollback/model.py:914-968 | a state that does not read back is never changed by a later attempt |
| Publication.ReadableStageCountsOperations | scripts/deploy_rollback/model.py:888-1000 | over every run from nothing, a readable stage was reached by exactly one completed preparation and one completed advance per further stage, unless some attempt of that very run advanced a document to one with the same digest; its history is always exactly that prefix of the stages |
| RollbackTimer.RollbackClock.Elapsed | scripts/deploy_rollback/model.py:1058-1131 | declare once, then raise the lower bound, with one clock reading for each; the files are the prefix that the budget allows, the answer is the stored bound, and it raises only if the declared record does not read back |
| RollbackTimer.RollbackClock.Declare | scripts/deploy_rollback/model.py:1058-1080 | a declaration that is carried out keeps the start of an earlier one and otherwise stores its own |
| RollbackTimer.RollbackClock.CompleteAfterExternalReadiness | scripts/deploy_rollback/model.py:1141-1183 | the verdict and, after it, the alert are written once as the prefix that the budget allows, and the answer is what the record says; unless it dies it judges exactly when the record reads back and is complete or the readiness does not predate the start |
| RollbackTimer.ClockIsMonotone | scripts/deploy_rollback/model.py:1034-1183 | over every sequence of commands, clock jumps, deaths and failed creates, a record once read is only ever replaced by one with the same start, no less elapsed time and the same verdict |
| RollbackTimer.RefusedClockIsFrozen | scripts/deploy_rollback/model.py:1082-1117 | a record that no longer reads back is final |
| RollbackTimer.DyingBetweenWritesRefuses | scripts/deploy_rollback/model.py:1133-1139 | dying between record and seal makes every read refuse, unless the two records have one digest |
| RollbackTimer.CompletionJudgesTheElapsedTime | scripts/deploy_rollback/model.py:1141-1167 | an undisturbed completion stores a verdict that is true of the time it stores, which is the greatest of the old bound and the time of the given readiness, or of a fresh measurement, and leaves the alert exactly when that misses the limit |
| RollbackTimer.ElapsedIsTheGreatest | scripts/deploy_rollback/model.py:1119-1131 | a measurement is the greatest of the stored bound, the wall clock's whole seconds since the start and those since the process started |
| RollbackTimer.AlertIsLost | scripts/deploy_rollback/model.py:1141-1183 | a completion that dies just before the alert has stored its negative verdict, and no later command ever writes the alert |
| RollbackTimer.LateReadingSpoilsTheReportIff | scripts/deploy_rollback/model.py:1119-1150 | after a completion, a reading of the elapsed time keeps time and verdict consistent exactly when the verdict was negative or neither clock is past the limit |
| JsonLine.RenderBreaksIff | scripts/deploy_rollback/model.py:147-154 | the written object holds a line boundary exactly when one of its keys or texts holds one of the three separators that the encoding does not escape |
| JsonLine.SplitAppended | scripts/deploy_rollback/model.py:1202-1202 | text that is appended after a finished line is split by itself |
| JsonLine.PiecesAreRefused | scripts/deploy_rollback/model.py:1202-1206 | a reader of exactly this format takes no proper piece of a written object |
| JsonLine.ReadersExist | scripts/deploy_rollback/model.py:147-154 | that reader takes back every written object, so the two demands the audit theorems make on a reader can be met and no two objects are written alike |
| AuditChain.SameHeadSameChain | scripts/deploy_rollback/model.py:1194-1219 | two chains of one length and one last digest are equal if and only if at no position they carry two different documents with one digest, so a difference exhibits its collision |
| AuditChain.AnchorDeterminesLog | scripts/deploy_rollback/model.py:1194-1219 | two present logs that verify against the same anchor hold the same events if and only if their events exhibit no collision at any position |
| AuditChain.ReadEvents | scripts/deploy_rollback/model.py:1194-1219 | splitting the text at every line boundary, reading each line and following the digests accepts exactly the anchored chains |
| AuditChain.AppendExtendsIff | scripts/deploy_rollback/model.py:1224-1252 | a completed append extends the verified list by exactly its event if and only if the event has no digest key of its own, up to a collision of the two documents involved, and none of its keys and texts holds U+0085, U+2028 or U+2029; otherwise the log refuses |
| AuditChain.SeparatorInOperatorRefuses | scripts/deploy_rollback/engine.py:118-150 | an operator name with U+2028 in it is recorded without an error, and from then on the log refuses for good |
| AuditChain.InterruptedAppendRefuses | scripts/deploy_rollback/model.py:1224-1252 | a crash after any part of the line and before the anchor is replaced makes verification refuse |
| AuditChain.OpenedLogRefusesIff | scripts/deploy_rollback/model.py:1224-1252 | a crash right after the file is opened matters only for the very first append |
| AuditChain.RefusalIsPermanent | scripts/deploy_rollback/model.py:1221-1252 | a log that does not verify is never written again |
| AuditChain.VerifiedLogIsHistory | scripts/deploy_rollback/model.py:1185-1252 | after any run of appends, each cut off at any character, a log that verifies holds exactly the events whose append completed, in order |
| AuditChain.MissingLogForgets | scripts/deploy_rollback/model.py:1194-1197 | without the log file, the append of an event that breaks no line and has no digest key starts a new chain that verifies |
| RestoreStages.RestoreEngine.Declare | scripts/backup_recovery/restore.py:203-229 | afterwards a checkpoint exists; an existing one is untouched, and a new one has the given start, stage zero and no history |
| RestoreStages.RestoreEngine.MoveTo | scripts/backup_recovery/restore.py:231-241 | it moves exactly when the stage is the current one or the next, and then the history grows by that entry or, for the current stage, by nothing |
| RestoreStages.RestoreEngine.Preflight | scripts/backup_recovery/restore.py:269-361 | afterwards the restore is declared; it succeeds exactly when its work does and there was no rollback, and the history grows by the preflight entry exactly on the first success |
| RestoreStages.RestoreEngine.CarryOut | scripts/backup_recovery/restore.py:492-736 | the state changes only when the stage before was reached and the work succeeded, and then the history grows by exactly this stage; success means that the stage is reached, and a refusal has one of the listed reasons |
| RestoreStages.RestoreEngine.ExternalReady | scripts/backup_recovery/restore.py:738-800 | success reports the recorded time and leaves a marker for this manifest; the checkpoint changes only from proxy authorization and within the limit, a marker is stored once and attests the full history, and a refusal has one of the listed reasons |
| RestoreStages.RestoreEngine.RollbackSite | scripts/backup_recovery/restore.py:802-846 | it succeeds exactly when the site was retained and the work succeeded, and then appends one rollback entry; otherwise nothing changes |
| RestoreStages.EveryRunIsGapFree | scripts/backup_recovery/restore.py:42-53 | after any sequence of commands that fail, are retried or are repeated, the history is a gap-free prefix of the stages followed only by rollbacks, and a marker is uploaded only from the full history and within the limit |
| RestoreStages.EveryEntryHasItsCommand | scripts/backup_recovery/restore.py:269-846 | in every run each history entry was made by the one command for its stage, with working insides, when exactly the entries before it were there |
| RestoreStages.DocumentedOrderCompletes | scripts/backup_recovery/restore.py:42-53 | the commands in the documented order, each with working insides and within the limit, end with the whole history attested by the marker and report the time between declaration and readiness |
| RestoreStages.RepeatedStageCommand | scripts/backup_recovery/restore.py:492-736 | a stage command repeated after its stage changes nothing; the two validations do their work again and answer for it, every other one answers at once |
| RestoreStages.RollbackIsFinal | scripts/backup_recovery/restore.py:231-247 | after a rollback no other command changes the state or reports success, except a bare declare |
| RestoreStages.ElapsedIsStable | scripts/backup_recovery/restore.py:738-800 | every later report of readiness gives the first one's elapsed time, which is within the limit |
| RestoreStages.HistoryIsExtended | scripts/backup_recovery/restore.py:231-241 | the history only ever grows at its end |
| RestoreStages.FailureKeepsHistory | scripts/backup_recovery/restore.py:231-247 | a failed command leaves the history and the marker as they were, unless only the marker upload failed |
| RestoreStages.OperationsShareOneMarker | scripts/backup_recovery/restore.py:171-192 | however the commands of several operations on one backup are mixed, each keeps a gap-free history, and the marker whose key they share attests the full history of one of them |
| Text.NormalizeCodeIsProjection | src/product_pdf_qr/domains/product/service.py:43-60 | normalization yields canonical codes, and the canonical codes are exactly its fixed points |
| Text.CodesIgnoreCase | src/product_pdf_qr/domains/product/service.py:43-60 | two texts have one code exactly when, trimmed, they agree up to the case of their letters |
| Text.CodesAreWords | src/product_pdf_qr/domains/product/service.py:43-60 | a text is a code exactly when, trimmed, it has 1 to 64 letters, digits, underscores and hyphens |
| Text.StripIgnoresSpace | src/product_pdf_qr/domains/product/service.py:43-60 | white space before or after a text does not matter |
| Worksheet.ColumnRoundTrip | src/product_pdf_qr/domains/importer/parser.py:244-251 | turning a column number into letters and back gives the number |
| Worksheet.LettersRoundTrip | src/product_pdf_qr/domains/importer/parser.py:244-251 | turning letters into a number and back gives the letters |
| Worksheet.ColumnIndex | src/product_pdf_qr/domains/importer/parser.py:244-251 | the loop over the letters computes the column, or the fallback |
| Worksheet.ReferenceNamesItsColumn | src/product_pdf_qr/domains/importer/parser.py:244-251 | a reference with the letters of a column means that column whatever the fallback, and any other text means the fallback |
| Worksheet.RowCells | src/product_pdf_qr/domains/importer/parser.py:283-301 | reading with a column filter equals reading every cell and pruning afterwards, with the same failures and the same blank test |
| Worksheet.NonblankIff | src/product_pdf_qr/domains/importer/parser.py:283-301 | a cell counts unless its text is made of white space only |
| Worksheet.ConsumeRows | src/product_pdf_qr/domains/importer/parser.py:304-392 | the streaming reader, in whatever order rows arrive, yields the projection of the full parse or its failure |
| ProductImport.ValidateWorkbook | src/product_pdf_qr/domains/importer/service.py:110-211 | the validating loop computes the specified verdict |
| ProductImport.ProjectionPreservesVerdict | src/product_pdf_qr/domains/importer/service.py:110-211 | validating the pruned sheet gives the candidates, duplicates, row errors and rejection of the full one |
| ProductImport.VerdictsMean | src/product_pdf_qr/domains/importer/service.py:110-211 | which verdict a sheet gets: too many rows before anything else, then none or several code headers, then one error for each row that cannot be imported, in order, and a list of candidates exactly otherwise |
| ProductImport.ColumnsAreTheMatches | src/product_pdf_qr/domains/importer/service.py:124-158 | the columns are those of the header cells that match, and the first is that of the first such cell |
| ProductImport.ReadAndValidate | src/product_pdf_qr/domains/importer/parser.py:304-392 | streaming and validating together give the verdict on a parse that keeps every cell |
| ProductImport.ValidationConserves | src/product_pdf_qr/domains/importer/service.py:159-211 | candidates and duplicates add up to the nonblank data rows, candidates are first occurrences with distinct canonical codes and the names of those rows, and every row's code is among them |
| ProductImport.Catalogue.ImportCandidates | src/product_pdf_qr/domains/importer/service.py:343-388 | one transaction: either all insertions happen as specified, or the table is unchanged |
| ProductImport.ImportConserves | src/product_pdf_qr/domains/product/service.py:121-185 | successes and duplicates add up to the candidates, and the table grows by exactly the new codes |
| ProductImport.ImportKeepsNames | src/product_pdf_qr/domains/product/service.py:121-185 | an existing product keeps its name, and a new one has the trimmed name of the first candidate with its code |
| ProductImport.ImportedNameIsOfTheFirstRow | src/product_pdf_qr/domains/importer/service.py:159-211 | over a whole file: a new product has the name in the first row with its code, or the code itself where that name is blank |
| ProductImport.ReimportAddsNothing | src/product_pdf_qr/domains/importer/service.py:343-388 | importing the same candidates again adds nothing, whatever tokens are drawn |
| ProductImport.ImportThenReimport | src/product_pdf_qr/domains/importer/service.py:271-388 | a whole import counts every nonblank row once, and the same file again reports every row as a duplicate |
| ReviewGate.LatestIsGreatest | scripts/ao/review_gate.py:773-805 | nothing that counts is later than the selected item, and one is selected whenever anything counts |
| ReviewGate.LatestIndexIff | scripts/ao/review_gate.py:703-703 | the selected item is exactly the first of the greatest, and there is none exactly when nothing counts |
| ReviewGate.ClassMeans | scripts/ao/review_gate.py:97-117 | a commit is code exactly when it changes the tree and names a path outside the evidence directory, evidence-only exactly when it names only paths inside, and refused exactly when its tree and its file list disagree |
| ReviewGate.BestIsGreatest | scripts/ao/review_gate.py:867-883 | no observation of a job outranks the selected one |
| ReviewGate.LatestFinishedDecides | scripts/ao/review_gate.py:867-883 | the latest finished observation of a job decides it, whatever is still running |
| ReviewGate.LatestObservations | scripts/ao/review_gate.py:867-883 | the dictionary loop keeps exactly the best observation of each job |
| ReviewGate.CommitCi | scripts/ao/review_gate.py:409-426 | each required job is decided by its check run, or else by its commit status |
| ReviewGate.CheckCi | scripts/ao/review_gate.py:563-572 | nothing is missing or failed exactly when the deciding observation of every required job is a success |
| ReviewGate.ApprovedByTheLatest | scripts/ao/review_gate.py:773-805 | an approved verdict comes from a trusted, undismissed review anchored at the commit that no later such review follows |
| ReviewGate.TheLatestReviewDecides | scripts/ao/review_gate.py:773-805 | the verdict, the verdict reported for a superseded commit and the stalled flag are those of the latest review that counts |
| ReviewGate.NoReviewDecides | scripts/ao/review_gate.py:773-805 | without a review that counts the verdict is missing, or untrusted exactly when somebody else reviewed the commit, and nothing is stalled |
| ReviewGate.ForeignReviewIsIgnored | scripts/ao/review_gate.py:773-805 | a review of another commit, a dismissed one or one by a stranger changes no judgement, except that a missing verdict becomes untrusted |
| ReviewGate.LaterReviewDecides | scripts/ao/review_gate.py:773-805 | a later review by a trusted reviewer replaces all earlier ones |
| ReviewGate.AcceptedEvidence | scripts/ao/review_gate.py:648-745 | accepted evidence rests on an exact comparison by the server that no exact comparison is later than, which is complete, starts at the chain's parent, counts its commits and names every tracked path |
| ReviewGate.EvidenceDecides | scripts/ao/review_gate.py:648-745 | from the latest exact comparison and the latest exact observation of any source: accepted exactly when the first covers the chain and every tracked path and the second describes the same chain and is a comparison or names the same paths; an error exactly when one of them contradicts the chain, the second only after the first passed; a gap exactly in the listed other cases |
| ReviewGate.EvidenceAcceptedIff | scripts/ao/review_gate.py:648-724 | evidence is accepted if and only if such a latest comparison and such a latest observation exist |
| ReviewGate.NoComparisonIsAGap | scripts/ao/review_gate.py:673-685 | without an exact comparison there is a gap, whatever else was observed |
| ReviewGate.ForeignEvidenceIsIgnored | scripts/ao/review_gate.py:655-672 | an observation by an unknown issuer, of another base or commit, or attested for another commit, never changes the verdict |
| ReviewGate.OneComparisonSuffices | scripts/ao/review_gate.py:648-724 | one comparison by the server that covers the chain and every tracked path is accepted |
| ReviewGate.PersistentIntroducedPaths | scripts/ao/review_gate.py:747-770 | the loops compute the tracked paths up to the final commit |
| ReviewGate.TrackedIff | scripts/ao/review_gate.py:747-770 | a path is tracked exactly when some file entry of a code commit adds it, copies it or renames a tracked path to it, and no later entry drops it |
| ReviewGate.NextCode | scripts/ao/review_gate.py:517-524 | the backward loop finds the final code commit and, for each other code commit, the very next one |
| ReviewGate.Evaluate | scripts/ao/review_gate.py:478-612 | the gate: every commit's row is right, with the next code commit and the earlier verdict of a superseded one and the stalled flag of the final one; it passes exactly when no row has a gap, and it refuses only for the listed reasons |
| ReviewGate.HeadKeepsReviewedTree | scripts/ao/review_gate.py:97-117 | from the final code commit to the head the tree outside the evidence directory stays the same, unless two consecutive trees between them differ and have one hash |
| ReviewGate.PassingHeadIsReviewed | scripts/ao/review_gate.py:478-612 | a pass means that the head outside the evidence directory has the tree of a commit whose required jobs succeeded, whose standing trusted review approves it, which the server's latest comparison covers and which the latest observation describes in agreement with it; only two consecutive trees after that commit with one hash can spoil the first part |
| ReviewGate.NoCodeNoChange | scripts/ao/review_gate.py:97-117 | without code commits the head still has the base's tree outside the evidence directory, unless two consecutive trees of the chain collide |
| ReviewGate.IntroducedPathsExist | scripts/ao/review_gate.py:747-770 | on every truthful chain a tracked path outside the evidence directory is in the final tree, unless two consecutive trees of the chain collide |
| ReviewGate.HonestCompareIsBlamedIff | scripts/ao/review_gate.py:694-770 | for every hash: an honest comparison lacks a tracked path exactly when code commits brought the path in and kept it and either the base has it with the same content, or neither side has it and it is an evidence path or two consecutive trees of the chain collide |
| ReviewGate.RestoredPathIsBlamed | scripts/ao/review_gate.py:694-700 | removing a file and adding it again is such a case |
| ReviewGate.RemovedEvidenceIsBlamed | scripts/ao/review_gate.py:694-770 | adding an evidence file in a code commit and removing it in an evidence-only commit is the other such case |
| ProductSearch.ThreePassesAreOne | src/product_pdf_qr/domains/product/service.py:188-191 | the three replacements equal one pass that escapes each special character |
| ProductSearch.EscapeIsInjective | src/product_pdf_qr/domains/product/service.py:188-191 | different terms have different escaped forms |
| ProductSearch.EscapedLikeMatches | src/product_pdf_qr/domains/product/service.py:188-191 | an escaped term at the front of a pattern matches itself literally and nothing else |
| ProductSearch.PatternFindsSubstrings | src/product_pdf_qr/domains/product/service.py:203-217 | the pattern matches a text exactly when the term is a contiguous substring of it, up to folding |
| ProductSearch.ListedIffContained | src/product_pdf_qr/domains/product/service.py:194-225 | a search lists exactly the products with the wanted upload status whose code or name contains the stripped term |
| QrImage.PixelsTile | src/product_pdf_qr/domains/qrcode/service.py:84-97 | every pixel lies in exactly one module's cell, and that module is computed from the pixel alone |
| QrImage.WidthsAreEven | src/product_pdf_qr/domains/qrcode/service.py:91-96 | all cells have the same width up to one pixel |
| QrImage.Rectangle | src/product_pdf_qr/domains/qrcode/service.py:97-97 | filling a rectangle blackens exactly its pixels |
| QrImage.PaintModule | src/product_pdf_qr/domains/qrcode/service.py:89-97 | painting one module adds exactly its pixels, or refuses an empty rectangle |
| QrImage.Generate | src/product_pdf_qr/domains/qrcode/service.py:80-97 | a pixel is black exactly when its module is dark, the label area stays white, and generation fails only for a matrix that is not square or has more modules than pixels |
| QrImage.SamplingRecoversTheSymbol | src/product_pdf_qr/domains/qrcode/service.py:84-97 | sampling any pixel of each cell gives the matrix back |
| QrImage.ImageDeterminesSymbol | src/product_pdf_qr/domains/qrcode/service.py:84-97 | two symbols of one size with the same image are equal |
| QrImage.BorderIsWhite | src/product_pdf_qr/domains/qrcode/service.py:84-97 | no pixel outside the symbol's cells is dark |
| QrImage.FarBorder | src/product_pdf_qr/domains/qrcode/service.py:84-97 | the right and bottom borders are at least four modules of the exact size |
| QrImage.QuietZoneHoldsIff | src/product_pdf_qr/domains/qrcode/service.py:84-97 | the left border is at least four of the narrowest modules exactly when the module count with its borders does not divide 1025 |
| QrImage.OnlyVersionFourFallsShort | src/product_pdf_qr/domains/qrcode/service.py:84-97 | among the forty standard sizes that fails only for 33 modules |
| QrImage.WrapProductName | src/product_pdf_qr/domains/qrcode/service.py:174-193 | the lines join to the name, each fits, and a line is broken only where the next character does not fit; it fails only if a character is too wide by itself |
| QrImage.FewestLines | src/product_pdf_qr/domains/qrcode/service.py:174-193 | for a monotone width no other way to break the name needs fewer lines |
| LoginBackoff.LoginRateLimiter.ActiveState | src/product_pdf_qr/domains/auth/rate_limit.py:105-116 | an expired state is forgotten, any other is returned |
| LoginBackoff.LoginRateLimiter.RetryAfter | src/product_pdf_qr/domains/auth/rate_limit.py:65-76 | the longer remaining block of address and account |
| LoginBackoff.LoginRateLimiter.Count | src/product_pdf_qr/domains/auth/rate_limit.py:78-96 | one key's counter goes up and its block is set, unless the power of two no longer converts |
| LoginBackoff.LoginRateLimiter.ReserveAttempt | src/product_pdf_qr/domains/auth/rate_limit.py:49-63 | check and count in one call, with three clock readings |
| LoginBackoff.LoginRateLimiter.RegisterSuccess | src/product_pdf_qr/domains/auth/rate_limit.py:99-103 | both histories are cleared and no other |
| LoginBackoff.CountersTellTheStreak | src/product_pdf_qr/domains/auth/rate_limit.py:49-116 | after every run the counters say exactly what the history of counted attempts, successes and gaps says |
| LoginBackoff.BackoffIsServed | src/product_pdf_qr/domains/auth/rate_limit.py:78-96 | the m-th attempt of a streak on a key comes at least the sum of the first backoffs after the one at the limit, whatever addresses and accounts are mixed |
| LoginBackoff.RefusedExactlyWhileWaiting | src/product_pdf_qr/domains/auth/rate_limit.py:49-76 | when no backoff exceeds the window, an attempt is refused exactly while its address's or its account's last counted attempt is still to be waited out |
| LoginBackoff.BlockIsKeptIff | src/product_pdf_qr/domains/auth/rate_limit.py:105-116 | a block is kept to its end exactly when it is no longer than the window |
| LoginBackoff.BackoffDoubles | src/product_pdf_qr/domains/auth/rate_limit.py:78-96 | from the limit on each further count doubles the block, from the base up to the maximum |
| LoginBackoff.RefusedAttemptsLeaveNoTrace | src/product_pdf_qr/domains/auth/rate_limit.py:49-63 | leaving all refused attempts out of a run changes nothing that any later attempt could notice |
| LoginBackoff.StreaksEnd | src/product_pdf_qr/domains/auth/rate_limit.py:78-96 | a streak never grows past the largest power of two that converts, because the attempt then raises |

## Left out

- Encryption, signatures and digest algorithms, JSON, ZIP, XML and PNG coding: abstract functions or decoded values.
- Commands run on the side (remote copy, containers, database dumps, version control): only their effect on the modelled store.
- A rotation that overlaps a backup in flight: the code gives no guarantee there, and the model separates them.
- Temporary files of the checkpoint staging: a crash leaves them behind, and no modelled code reads them.
- Manifest and marker fields that are checked one by one (images, configuration hashes, signatures, schema version): flat checks.
- Uploads.NoDeadlock: models waits as steps that are not enabled; a lock that is never released is a cancellation, and isolation levels are not modelled beyond what a row lock and a unique key give.
- UploadServer.Server.UploadPdf: does not model the audit rows or the checks of the PDF itself, and takes the duplicate check and the next number, two statements under one row lock, as one step.
- UploadServer.Server.RestorePdfVersion: does not model the audit row that a restore appends.
- RestoreStages.RestoreEngine.CarryOut: models what a stage does to the target as a flag that says whether it worked.
- AuditChain.AppendExtendsIff: models an event as one level of texts, numbers and literals, without nested objects and lists, and counts the written text in characters, not in encoded bytes.
- RollbackRun.Engine.Run: does not model the checks of records, approvals and lock strategies before the engine starts.
- ReviewGate.Evaluate: does not model the texts of the reasons or how the facts are fetched and parsed; a review's verdict is given.
- QrImage.Generate: does not model the drawing of the label text or the choice of the font size.
- QrImage.WrapProductName: treats the width of a text as an abstract function.
- ProductSearch.ListedIffContained: does not model the order and the pages of the listing.
- LoginBackoff.BackoffIsServed: models times as real numbers, without rounding.
- The limiter for unknown public tokens and the listing of orphan files: they would only add easy members.
- HTTP routes, templates, settings, command lines, environment checks, evidence texts and workspaces: plumbing.
