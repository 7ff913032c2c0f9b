# Verification model of robotsix-central-deploy

The program manages containerised components on a host: it stores their configuration, follows
their images in a registry, deploys and rolls back, moves their volumes and cleans up. This project
models its decision-making code in Dafny and proves what that code promises. Docker, the registry,
clocks and file systems appear as answers that may be anything, within the contracts the code assumes.

## How it is laid out

- **Configuration** (`JsonModel`, `ConfigSchema`, `ValueCoercion`, `SchemaWalker`, `SchemaWalkerLoops`,
  `StripRestore`, `SecretMasking`, `ConfigMerging`, `ConfigMeaning`,
  `StripMeaning`, `MaskMeaning`, `MergeMeaning`, `RestoreMeaning`). One recursive walk over a JSON Schema and one or two
  JSON objects, with the four visitors strip, mask, merge and restore. The keywords are those of JSON
  Schema 2020-12: sections 8.2.3.1, 8.2.4, 10.3.1.2, 10.3.2.1 and 10.3.2.3 of the Core and 9.2 and 9.4 of
  the Validation document; one hop of local references is followed. The walk is a function whose measure
  is the depth of the values, then the rank of the schema; the loops of the original are methods proved
  equal to it.
- **Caretaker** (`Runs`, `ServiceRecords`, `DeployVerification`, `DeployLocks`, `UpdatePhase`,
  `UpdateGuards`, `UpdateOutcomes`,
  `KnownBadDigests`, `MillPolling`, `MillScheduler`, `MillGuarantees`, `MillOutcomes`). A state machine over service records
  and scheduler fields. The classes mutate shared record objects as the original does and are proved to
  take the machine's steps; the safety and timing results are about every run of the machine.
- **Volume relocation** (`VolumeRelocation`, `RelocationSteps`, `RelocationSafety`, `RelocationOutcomes`,
  `RelocationOverlap`, `RelocationRequests`). Files are a map from path
  to contents, volumes a map from name to options, and `Faults` holds one choice of everything that can
  go wrong, including a copy that leaves anything at all in the target.
- **Rate limiter** (`RateLimiting`), **scopes** (`ScopeMatching`), **ports and contract refresh**
  (`PortAssignment`, `ImageReferences`, `ContractRefresh`, `ContractSteps`, `ContractGuarantees`,
  `ContractOutcomes`), **volume audit**
  (`VolumeAudit`), **image pruning** (`ImagePruning`).

Times are integers, or reals where the original divides or compares fractions of a second; sizes are
integers. JSON objects are maps, so key order plays no role.

## What turned out not to hold

- A registry tick inside the verification window moves the digest that the known-bad marker is copied
  from. The text of the finding says that the broken image will not be retried; it is, as soon as the
  registry shows it again (`KnownBadDigests.TickInWindowDefeatsMarker`). `KnownBadDigests.CrashSparesTargetIff`
  is the exact condition, from `KnownBadDigests.CrashMarksTarget` (which digest gets the marker) and
  `KnownBadDigests.MarkerIsProtection` (the marker is all there is).
- A relocation promises to leave the source intact when it fails, but the clean-up after a failed copy or
  comparison removes the target directory with everything in it, the source included if it is, or lies
  under, that directory (`RelocationOverlap.RelocatingInPlaceLosesData`, `RelocationOverlap.FailedCopyDeletes`).
  The procedure itself has no guard against this: `RelocationOverlap.NothingLostIff` and
  `RelocationOverlap.DataKeptIffDisjoint` are the exact conditions. The guard of the request goes by the stored
  target disk, which a contract refresh resets (`RelocationRequests.RefreshDisarmsGuard`).
- Strip followed by restore is not the identity everywhere (`StripRestore.RoundTrip`): an absent declared array
  comes back as null, an absent declared object as an object, and unknown keys are dropped
  (`StripRestore.AbsentArrayBecomesNull`, `StripRestore.AbsentObjectAppears`, `StripRestore.UnknownKeyIsDropped`).
- A refresh is described as preserving operator-set fields, but resets consumed scopes, target disk, remote host
  and more, and reports none of it (`ContractGuarantees.RefreshResetsOperatorFields`,
  `ContractGuarantees.UnreportedChanges`).
- A volume declared by two components can lose a measurement; `VolumeAudit.ScanKeepsBaselineIff` says exactly
  when, and `VolumeAudit.SecondDeclarationLosesMeasurement` is the smallest case.

In each case the model does what the code does.

## Model

| member | source | states |
|---|---|---|
| `ConfigSchema.GroundedIffLayered` | src/robotsix_central_deploy/lifecycle/_config_utils.py:156-193 | The recursion is well-founded for a schema document exactly when the definitions of objects that a walk from the root can come to can be given levels so that declared-object chains only go down; cycles through arrays and maps never matter, nor do definitions that no walk enters. |
| `ConfigSchema.RankDecreases` | src/robotsix_central_deploy/lifecycle/_config_utils.py:137-143 | Descending into a declared object property lowers the rank of the schema, the second part of the measure. |
| `SchemaWalker.Children` | src/robotsix_central_deploy/lifecycle/_config_utils.py:137-143 | The values handed to a declared object never get deeper, and get strictly shallower as soon as the key is present in one of them. |
| `SchemaWalker.JobShallower` | src/robotsix_central_deploy/lifecycle/_config_utils.py:233-253 | Every object that an array visitor walks again is strictly shallower than the object that holds the array. |
| `SchemaWalker.OnlyMergeFails` | src/robotsix_central_deploy/lifecycle/_config_utils.py:196-264 | Strip, mask and restore succeed on every input; only the coercion of a merge can fail. |
| `SchemaWalkerLoops.WalkObject` | src/robotsix_central_deploy/lifecycle/_config_utils.py:156-193 | The three loops of the walk with their growing result and `visited` set compute the recursive walk, failing exactly when it fails. |
| `SchemaWalkerLoops.MapKeyList` | src/robotsix_central_deploy/lifecycle/_config_utils.py:109-126 | The list of map keys holds each unvisited key of any of the value objects exactly once, those of the first object before those only the second has. |
| `SchemaWalkerLoops.DispatchKey` | src/robotsix_central_deploy/lifecycle/_config_utils.py:128-154 | The dispatch of one key gives the slot of the recursive walk, whichever visitor method it reaches. |
| `SchemaWalkerLoops.SingleItems` | src/robotsix_central_deploy/lifecycle/_config_utils.py:233-253 | The array loop of strip and mask rebuilds the list item by item, and fails if an item fails. |
| `SchemaWalkerLoops.MergeItems` | src/robotsix_central_deploy/lifecycle/_config_utils.py:507-544 | The array loop of merge overlays every submitted object on the stored object of the same index. |
| `SchemaWalkerLoops.RestoreItems` | src/robotsix_central_deploy/lifecycle/_config_utils.py:717-748 | The array loop of restore pairs items by index and leaves unpaired ones as they are. |
| `SchemaWalkerLoops.CopyUnknown` | src/robotsix_central_deploy/lifecycle/_config_utils.py:181-192 | After the last loop of a strip, all keys of the value have been considered, those the schema does not know included. |
| `ValueCoercion.CoerceSettles` | src/robotsix_central_deploy/lifecycle/_config_utils.py:283-327 | A coerced value is of its declared type: coercing it again succeeds and changes nothing. |
| `ValueCoercion.CoerceMeans` | src/robotsix_central_deploy/lifecycle/_config_utils.py:283-322 | What each declared type makes of a value: which values are accepted, that the result has the type and stands for the submitted value, which words mean true and which false, and that booleans are no numbers. |
| `JsonModel.TruthyMeans` | src/robotsix_central_deploy/lifecycle/_config_utils.py:500-502 | A submitted secret counts as supplied unless it is null, false, zero or empty. |
| `ConfigSchema.ResolveMeans` | src/robotsix_central_deploy/lifecycle/_config_utils.py:267-280 | A local reference to a definition that exists stands for that definition. |
| `ConfigSchema.ResolvesOnlyRefs` | src/robotsix_central_deploy/lifecycle/_config_utils.py:267-280 | Whatever does not stand for itself is such a reference. |
| `ConfigSchema.ObjectItemsMeans` | src/robotsix_central_deploy/lifecycle/_config_utils.py:144-153 | The items of an array are walked as objects if `items` is, or refers to, the schema of an object, and only then. |
| `StripMeaning.StripMeans` | src/robotsix_central_deploy/lifecycle/_config_utils.py:196-264 | Strip gives the one document that has no secret at any position the walk reaches and everything else, unknown keys included, as it was, with null for an absent array. |
| `MaskMeaning.MaskMeans` | src/robotsix_central_deploy/lifecycle/_config_utils.py:376-425 | Mask gives the one document with "***" at each secret position that holds a non-empty string other than "***", "" at every other secret position, and elsewhere the stored values, "" for an absent scalar and [] for an absent array. |
| `MergeMeaning.MergeMeans` | src/robotsix_central_deploy/lifecycle/_config_utils.py:479-573 | A merge succeeds with exactly one document: supplied secrets and submitted scalars, the latter coerced; the stored value for a blank, masked or omitted secret and for an omitted array, or else "" and []; for an omitted or null scalar the stored value if it is preferred, else the default, else "" or null; submitted items laid over those of the same index; at every object, item and map entry. |
| `RestoreMeaning.RestoreMeans` | src/robotsix_central_deploy/lifecycle/_config_utils.py:686-762 | Restore gives the one document with the current secrets, or the restored ones where there is no current one, and everything else from the restored document, items paired by index. |
| `StripRestore.RoundTrip` | src/robotsix_central_deploy/lifecycle/_config_utils.py:686-762 | Restoring what was stripped gives the original back if and only if every key is known, every declared object is an object, every declared array is present, and so on below, through references, arrays and maps. |
| `StripRestore.AbsentArrayBecomesNull` | src/robotsix_central_deploy/lifecycle/_config_utils.py:242-244 | A declared array that is absent comes back as null. |
| `StripRestore.AbsentObjectAppears` | src/robotsix_central_deploy/lifecycle/_config_utils.py:137-143 | A declared object that is absent comes back as the round trip of the empty object. |
| `StripRestore.UnknownKeyIsDropped` | src/robotsix_central_deploy/lifecycle/_config_utils.py:686-762 | A key that the schema does not know survives the strip and is gone after the restore. |
| `StripRestore.StripRemovesSecrets` | src/robotsix_central_deploy/lifecycle/_config_utils.py:196-264 | A stripped document holds nothing at any secret position that a walk reaches. |
| `SecretMasking.NonInterference` | src/robotsix_central_deploy/lifecycle/_config_utils.py:376-425 | Two configurations have the same masked view if and only if they agree outside the secret positions, on the map entries, and at secret positions on whether a usable secret is set. |
| `SecretMasking.ResubmitKeepsSecrets` | src/robotsix_central_deploy/lifecycle/_config_utils.py:479-573 | If saving the masked view succeeds, every secret position keeps its stored value. |
| `SecretMasking.ResubmitIsIdentity` | src/robotsix_central_deploy/lifecycle/_config_utils.py:479-573 | Saving the masked view changes nothing if and only if the configuration is complete, has only known keys, every scalar has its declared type, and a null stands only where a null submission means null. |
| `ConfigMerging.MergeTwice` | src/robotsix_central_deploy/lifecycle/_config_utils.py:479-573 | Merging the same submission again over the result succeeds and changes nothing, for both settings of `prefer_existing_for_unset`. |
| `ConfigMerging.SubmissionWins` | src/robotsix_central_deploy/lifecycle/_config_utils.py:479-573 | A merge returns the submission as it stands if and only if it covers every declared key and stored map entry and, at each position, its secret is a real string (or repeats what is stored), its scalar has its declared type, and its null is what a null falls back to. |
| `ConfigMerging.MergedKeys` | src/robotsix_central_deploy/lifecycle/_config_utils.py:109-126 | A successful merge has exactly the declared keys and the union of the map entries; merging again considers the same keys. |
| `ServiceRecords.CheckAndUpdateRecord` | src/robotsix_central_deploy/lifecycle/deps/background.py:53-95 | The registry tick on a record object: new state as a function of the old one and of what the registry answers. |
| `ServiceRecords.TicksKeep` | src/robotsix_central_deploy/lifecycle/deps/background.py:53-95 | No run of ticks touches the known-bad marker, the previous digest or the pending clock, nor a deployed digest that is known. |
| `UpdateGuards.TicksMakeHonest` | src/robotsix_central_deploy/lifecycle/deps/background.py:53-95 | Once a lookup gave a digest, the update flag says exactly whether the registry's digest differs from the deployed one, and ticks keep it so. |
| `UpdateGuards.TickAdopts` | src/robotsix_central_deploy/lifecycle/deps/background.py:53-95 | A record without a deployed digest adopts the running one and is looked up from then on; only a lookup with a digest moves the registry digest and the flag. |
| `UpdateGuards.TickNeedsImage` | src/robotsix_central_deploy/lifecycle/deps/background.py:53-60 | A record without an image is never touched. |
| `UpdateGuards.TicksShowAuth` | src/robotsix_central_deploy/lifecycle/deps/background.py:53-95 | After any ticks the authentication flag tells whether the last answered lookup failed to authenticate. |
| `DeployVerification.VerifyPostDeployHealth` | src/robotsix_central_deploy/lifecycle/deploy_verify.py:82-205 | The polling loop fails a deploy if and only if, before the first poll that finds no container, some poll shows a failed state or a restart count above the first one seen, or the final poll is unhealthy; it reports the first poll that does so. Errored polls never decide. |
| `DeployVerification.CondemnedMeans` | src/robotsix_central_deploy/lifecycle/deploy_verify.py:142-173 | The trace predicate with its states, its baseline and its last poll written out. |
| `DeployVerification.NeverSeenPasses` | src/robotsix_central_deploy/lifecycle/deploy_verify.py:116-133 | A window that never sees the container passes. |
| `DeployVerification.PollCountMeans` | src/robotsix_central_deploy/lifecycle/deploy_verify.py:106-107 | A window has at least two polls, and otherwise as many as fit into it. |
| `DeployVerification.WindowMeans` | src/robotsix_central_deploy/lifecycle/deploy_verify.py:44-50 | The default window has thirteen polls. |
| `DeployVerification.RollbackAfterFailedDeploy` | src/robotsix_central_deploy/lifecycle/deploy_verify.py:224-313 | A rollback swaps deployed and previous digest, takes the live state when it can be read, and changes nothing when there is no previous digest or the backend fails. |
| `DeployLocks.DeployLockTable.TryAcquire` | src/robotsix_central_deploy/lifecycle/deploy_lock.py:22-41 | A lock is acquired if and only if nobody holds it; a refused call changes neither the lock nor its holder. |
| `DeployLocks.DeployLockTable.Release` | src/robotsix_central_deploy/lifecycle/deploy_lock.py:66-74 | A release frees exactly the named component and drops its holder. |
| `DeployLocks.DeployLockTable.Info` | src/robotsix_central_deploy/lifecycle/deploy_lock.py:55-63 | The holder is reported exactly while the lock is held. |
| `UpdatePhase.CheckGuards` | src/robotsix_central_deploy/caretaker/phases.py:137-205 | The guards of the loop before the lock, in order. |
| `UpdatePhase.DeployPrimary` | src/robotsix_central_deploy/caretaker/phases.py:228-322 | A deploy with its verification window, the ticks inside it, the marker and the rollback: the record afterwards and the outcome. |
| `UpdatePhase.FanOutSiblings` | src/robotsix_central_deploy/lifecycle/routers/_sibling_utils.py:51-122 | The sibling fan-out over the shared record objects. |
| `UpdatePhase.ActWithLock` | src/robotsix_central_deploy/caretaker/phases.py:220-385 | What a turn does while it holds the deploy lock; nothing when the lock is taken, and the lock table afterwards is as before. |
| `UpdatePhase.PhaseUpdate` | src/robotsix_central_deploy/caretaker/phases.py:126-387 | The whole phase over shared, mutable records refines a run of the step machine, one turn for each record, and leaves no lock behind. |
| `UpdateGuards.AttemptsAreAllowed` | src/robotsix_central_deploy/caretaker/phases.py:106-205 | Every attempt of a whole phase is on a primary that opted in, is neither busy nor locked and is not the caretaker's own container, and there is none when that container is unknown, however earlier turns changed the records. |
| `UpdateOutcomes.TakesTurnIsEligible` | src/robotsix_central_deploy/caretaker/phases.py:137-226 | A record takes its turn if and only if all guards let it through and it has an update not known to be bad or a stale sibling. |
| `UpdateOutcomes.PhaseAttemptsExactly` | src/robotsix_central_deploy/caretaker/phases.py:106-241 | In a whole phase a primary is attempted exactly once if the caretaker knows its own container, all guards let the primary through and it wants an update not known to be bad, and otherwise not at all. |
| `UpdateOutcomes.TurnDeploysPrimary` | src/robotsix_central_deploy/caretaker/phases.py:228-322 | The record and the log entry of a primary whose turn deploys it, field by field: raised, healthy, or failed with and without a rollback. |
| `UpdateOutcomes.HealthyDeployLeaves` | src/robotsix_central_deploy/caretaker/phases.py:241-261 | A healthy deploy leaves the new digests, the configured image and state, no marker and no clock, and a pending update only if a lookup in its window showed yet another digest. |
| `UpdateOutcomes.TurnRefreshesSiblings` | src/robotsix_central_deploy/caretaker/phases.py:354-365 | When a record takes its turn, for an update of its own or for a stale sibling, and its own deploy does not raise, every configured sibling in the store whose deploy goes through has its new digests, image and state and asks for no update. |
| `UpdateOutcomes.PhaseRefreshesSiblings` | src/robotsix_central_deploy/caretaker/phases.py:127-165 | Over a whole phase, one stale sibling record is enough to have all configured siblings of its permitted parent refreshed at the end, whatever other turns do. |
| `UpdateGuards.FailedImageIsNamed` | src/robotsix_central_deploy/caretaker/phases.py:294-322 | After a failed verification the failed image is the previous one if the rollback worked, and otherwise still the deployed one of a failed record, whatever ticked inside the window. |
| `UpdatePhase.OneRecordChanged` | src/robotsix_central_deploy/lifecycle/store.py:65-91 | Records stored under their own names are distinct objects: writing one changes the store at its name only. |
| `KnownBadDigests.StepAndMarker` | src/robotsix_central_deploy/caretaker/phases.py:170-322 | Any step attempts at most one deploy, never a known-bad one, and moves the marker of a component only when that component completes a deploy. |
| `KnownBadDigests.KnownBadNotRetried` | src/robotsix_central_deploy/caretaker/phases.py:170-322 | Over every run of turns, ticks and foreign writers: after verification failed for a digest that the registry still showed at the verdict, that digest is not attempted for that component before a deploy of another target completed, whether or not the rollback worked and whichever siblings are stale. |
| `KnownBadDigests.MarkerIsProtection` | src/robotsix_central_deploy/caretaker/phases.py:170-180 | A digest is spared in all possible futures if and only if it is the marker. |
| `KnownBadDigests.CrashMarksTarget` | src/robotsix_central_deploy/caretaker/phases.py:294-302 | The marker set by a failed verification is the digest that the registry shows at the verdict, after the ticks of the window. |
| `KnownBadDigests.CrashSparesTargetIff` | src/robotsix_central_deploy/caretaker/phases.py:294-302 | After a crashed deploy at a digest, every possible future spares that digest if and only if the registry, as last seen inside the verification window, still showed it. |
| `KnownBadDigests.TickInWindowDefeatsMarker` | src/robotsix_central_deploy/caretaker/phases.py:301 | A concrete run in which a tick inside the window moves the digest: the marker goes to the untried image, and the crashing one is deployed and crashes again. |
| `MillScheduler.CaretakerScheduler.EvaluateMillBusy` | src/robotsix_central_deploy/caretaker/scheduler.py:501-580 | The busy decision and the pending clock as functions of the settings, the record and the probe. |
| `MillScheduler.CaretakerScheduler.TrackMillDeferral` | src/robotsix_central_deploy/caretaker/scheduler.py:374-383 | Start of a deferral once, cleared when the mill is not busy. |
| `MillScheduler.CaretakerScheduler.ArmPendingMillUpdate` | src/robotsix_central_deploy/caretaker/scheduler.py:391-431 | The conditions under which an update that appeared between passes starts a deferral. |
| `MillScheduler.CaretakerScheduler.RunOnce` | src/robotsix_central_deploy/caretaker/scheduler.py:144-176 | The update part of a full pass on the mutable scheduler refines the specification of a pass. |
| `MillScheduler.CaretakerScheduler.RecheckDeferredMill` | src/robotsix_central_deploy/caretaker/scheduler.py:433-499 | A recheck on the mutable scheduler refines the specification of a recheck. |
| `MillScheduler.CaretakerScheduler.WaitForNextPass` | src/robotsix_central_deploy/caretaker/scheduler.py:749-779 | The timed loop ends exactly at its deadline and has run the rechecks of the specification, while others tick, write to records and take and free deploy locks. |
| `MillGuarantees.LoopIsPolls` | src/robotsix_central_deploy/caretaker/scheduler.py:781-810 | The wait followed by the next pass is a number of polls, so statements about polls speak about the loop. |
| `MillGuarantees.AttemptsPerInterval` | src/robotsix_central_deploy/caretaker/scheduler.py:157-162 | From one full pass to the next, through any rechecks, ticks and foreign writers, the mill is attempted at most once plus once per change of its registry digest. |
| `MillGuarantees.FirstBusyStartsClock` | src/robotsix_central_deploy/caretaker/scheduler.py:554-558 | The first busy observation of a pending update starts the pending clock at that instant. |
| `MillGuarantees.StillWaiting` | src/robotsix_central_deploy/caretaker/scheduler.py:547-580 | Below the force ceiling a busy mill is deferred and its clock does not move; at the ceiling it is no longer marked busy. |
| `MillGuarantees.BoundedWait` | src/robotsix_central_deploy/caretaker/scheduler.py:749-779 | With every probe busy and the update left pending by all others, the clock stays at the first busy observation and the update phase runs with the mill not marked busy at a poll that is at or after the force ceiling and less than one recheck slice after it. |
| `MillOutcomes.FullPassExactly` | src/robotsix_central_deploy/caretaker/scheduler.py:157-176 | A full pass attempts the mill exactly once if it is not held up (reachable, in heavy stages, with an update below the force ceiling) and the guards let it through, and otherwise not at all; deferral, attempted digest and clock afterwards are given exactly. |
| `MillOutcomes.FullPassAttemptsOthers` | src/robotsix_central_deploy/caretaker/scheduler.py:157-176 | Whatever becomes of the mill, every other primary is attempted exactly if it is permitted and wants its update. |
| `MillOutcomes.RecheckExactly` | src/robotsix_central_deploy/caretaker/scheduler.py:391-499 | A recheck does nothing unless a deferral is open or an update appeared that nobody has tried, marked, locked or switched off; otherwise it attempts the mill exactly as a full pass would. |
| `MillOutcomes.RecheckAttemptsNoOther` | src/robotsix_central_deploy/caretaker/scheduler.py:480-490 | A recheck attempts nothing but the mill. |
| `MillOutcomes.IdleRecheckEndsWait` | src/robotsix_central_deploy/caretaker/scheduler.py:547-552 | A recheck of an open or opening deferral that meets the mill idle or unreachable ends the wait at that poll: no deferral stays open, the mill is attempted exactly once if the guards let it through, and an idle answer clears the clock. |
| `MillOutcomes.IdlePassEndsWait` | src/robotsix_central_deploy/caretaker/scheduler.py:547-552 | So does a full pass that meets the mill idle or unreachable. |
| `MillOutcomes.PollRechecks` | src/robotsix_central_deploy/caretaker/scheduler.py:749-779 | A poll before the deadline is a recheck at the end of a slice of at least a minute. |
| `MillOutcomes.PollPasses` | src/robotsix_central_deploy/caretaker/scheduler.py:798-807 | The poll at the deadline is the full pass, which sets the next one at least an hour later. |
| `MillOutcomes.LastChangeIsMet` | src/robotsix_central_deploy/caretaker/scheduler.py:772-777 | A poll meets each record as the last tick or other writer left it. |
| `MillOutcomes.RecheckWithoutMill` | src/robotsix_central_deploy/caretaker/scheduler.py:453-455 | Without a configured mill, or with the caretaker switched off, a recheck only closes the deferral. |
| `MillOutcomes.WaitWithoutMill` | src/robotsix_central_deploy/caretaker/scheduler.py:762-768 | Without a configured mill, or with the caretaker switched off, the wait is one sleep. |
| `RelocationSteps.DockerHost.RelocateVolume` | src/robotsix_central_deploy/lifecycle/backends/_volume_ops.py:618-1011 | The nine steps with their failure branches, as side effects on files and volumes, refine the specification of a relocation. |
| `RelocationSafety.RelocationKeepsData` | src/robotsix_central_deploy/lifecycle/backends/_volume_ops.py:618-1011 | For disjoint directories and every combination of faults: unless success is reported the source holds what it held; on success the name is bound to the target; whenever the name is bound, the original contents are seen through it; it can only end up unbound when restoring the old volume failed. |
| `RelocationOutcomes.OutcomeMeans` | src/robotsix_central_deploy/lifecycle/backends/_volume_ops.py:666-1011 | The outcome of every run: the first step that fails decides between refused and escaped, and a run in which none fails moves the volume. |
| `RelocationOutcomes.FaultlessRunMovesIff` | src/robotsix_central_deploy/lifecycle/backends/_volume_ops.py:666-1011 | A run in which no fault strikes succeeds if and only if the volume is a bind volume with a known directory. |
| `RelocationOutcomes.MovedVolume` | src/robotsix_central_deploy/lifecycle/backends/_volume_ops.py:885-897 | After a success the name is bound to `disk/robotsix-volumes/name`, with type "none" and the labels it had. |
| `RelocationOutcomes.MovedCanMoveAgain` | src/robotsix_central_deploy/lifecycle/backends/_volume_ops.py:681-694 | The moved volume passes the guards of a further relocation, which then succeeds if no fault strikes. |
| `RelocationOutcomes.BoundAfter` | src/robotsix_central_deploy/lifecycle/backends/_volume_ops.py:885-970 | What the name is bound to after any run: the new directory once the creation took effect, else the old volume unless its removal took effect and its restoration did not. |
| `RelocationOutcomes.OnlyBindVolumes` | src/robotsix_central_deploy/lifecycle/backends/_volume_ops.py:666-694 | A volume that is no bind volume, or has no known directory, is refused without a trace. |
| `RelocationOutcomes.UnreachableTarget` | src/robotsix_central_deploy/lifecycle/backends/_volume_ops.py:696-777 | A new directory that is not the same one on the Docker host ends the run before anything is copied or removed; at most the marker stays behind. |
| `RelocationOutcomes.MovedFreesSource` | src/robotsix_central_deploy/lifecycle/backends/_volume_ops.py:987-1003 | A success frees the old directory up to what the removal left, and leaves it alone if the server does not see it. |
| `RelocationOutcomes.FailureEmptiesTarget` | src/robotsix_central_deploy/lifecycle/backends/_volume_ops.py:819-877 | A failed copy or comparison that could clean up leaves nothing in the new directory. |
| `RelocationOverlap.DataKeptIffDisjoint` | src/robotsix_central_deploy/lifecycle/backends/_volume_ops.py:618-1011 | For a bind volume, every honest choice of faults keeps the data in the full sense of `RelocationKeepsData` if and only if the directories are disjoint. |
| `RelocationOverlap.NothingLostIff` | src/robotsix_central_deploy/lifecycle/backends/_volume_ops.py:618-1011 | For a bind volume, every honest choice of faults leaves every file of the source readable, in the source or through the name, if and only if no file of the source lies under the target. |
| `RelocationOverlap.RefusedKeepsFilesIff` | src/robotsix_central_deploy/lifecycle/backends/_volume_ops.py:819-877 | A failed copy or comparison with a complete clean-up keeps the files of the source if and only if none of them lies under the target. |
| `RelocationOverlap.FailedCopyDeletes` | src/robotsix_central_deploy/lifecycle/backends/_volume_ops.py:819-830 | Whenever the copy fails and the clean-up works, exactly the files under the target are gone, those of the source among them. |
| `RelocationOverlap.RelocatingInPlaceLosesData` | src/robotsix_central_deploy/lifecycle/backends/_volume_ops.py:819-830 | A volume that already lives at its target: the copy fails, the clean-up deletes its only file, and the name is still bound to the empty directory. |
| `RelocationOverlap.NestedMovesNothing` | src/robotsix_central_deploy/lifecycle/backends/_volume_ops.py:859-877 | With one directory strictly inside the other, an honest comparison lets a run succeed only if the copy itself left nothing in the source. |
| `RelocationRequests.RefreshDisarmsGuard` | src/robotsix_central_deploy/lifecycle/routers/volumes.py:263-276 | As a consequence: after any accepted contract refresh the guard stops no request, not even to the disk the volume is on, and such a request loses every file of the volume if the copy fails. |
| `RelocationRequests.RequestLosesNothingIff` | src/robotsix_central_deploy/lifecycle/routers/volumes.py:263-276 | Every honest run of a request for a bind volume loses nothing if and only if the guard stops it or no file of the volume lies under the target. |
| `RelocationSafety.MovedKeepsDataIffDisjoint` | src/robotsix_central_deploy/lifecycle/backends/_volume_ops.py:987-1003 | A relocation that reports success and purges the source of a volume that holds something has kept its data if and only if neither directory lies inside the other. |
| `RelocationSafety.RelocationTouchesNothingElse` | src/robotsix_central_deploy/lifecycle/backends/_volume_ops.py:618-1011 | Other volumes, and files outside the two directories, are as before, whatever fails. |
| `RateLimiting.RateLimitStore.CheckApiRate` | src/robotsix_central_deploy/lifecycle/rate_limiter.py:81-90 | A check decides from the timestamps held for its own address and leaves those of all others alone. |
| `RateLimiting.Prune` | src/robotsix_central_deploy/lifecycle/rate_limiter.py:71-77 | The pop loop leaves what remains after dropping the old timestamps at the front. |
| `RateLimiting.AcceptsExactly` | src/robotsix_central_deploy/lifecycle/rate_limiter.py:81-90 | Over requests in time order, the next one is accepted if and only if fewer than `limit` requests were accepted in the window that ends now, counted in the full history. |
| `RateLimiting.NoWindowOverfull` | src/robotsix_central_deploy/lifecycle/rate_limiter.py:81-90 | No window of that length, wherever it ends, holds more than `limit` accepted requests. |
| `ScopeMatching.MatchScope` | src/robotsix_central_deploy/registry/env_store.py:135-164 | The recursive matcher with its loop over what `**` consumes decides the match on segments. |
| `ScopeMatching.MatchesExactly` | src/robotsix_central_deploy/registry/env_store.py:135-164 | A pattern other than the bare `*` matches if and only if the segments of the scope split into consecutive runs, one segment for each literal (equal) or `*`, any number for each `**`; the bare `*` matches all. |
| `ScopeMatching.SubtreePattern` | src/robotsix_central_deploy/registry/env_store.py:135-164 | A literal scope followed by `:**` matches exactly that scope and everything below it. |
| `ScopeMatching.ResolveConsumedCredentials` | src/robotsix_central_deploy/registry/env_store.py:166-210 | A key is resolved if and only if another component shares it under a consumed scope; the last such component in store order decides its value. |
| `ScopeMatching.SharingMeans` | src/robotsix_central_deploy/registry/env_store.py:184-208 | What makes a component share a key and which value it then shares, written out on its tags, secrets and plain values. |
| `ScopeMatching.SharerExists` | src/robotsix_central_deploy/registry/env_store.py:184-210 | A deciding component exists if and only if some other component shares the key. |
| `PortAssignment.FindFreeHostPort` | src/robotsix_central_deploy/onboard/port_utils.py:61-68 | The search returns the lowest port of the range that is not occupied. |
| `PortAssignment.SearchFailsOnlyWhenFull` | src/robotsix_central_deploy/onboard/port_utils.py:61-68 | The search fails if and only if as many ports of the range are occupied as it has. |
| `PortAssignment.PreserveHostPortAssignments` | src/robotsix_central_deploy/onboard/port_utils.py:34-58 | The loop writes the assigned host ports into the mapping objects and grows the occupied set, as the recursive assignment says. |
| `PortAssignment.PreservedKeepsKnown` | src/robotsix_central_deploy/onboard/port_utils.py:34-58 | Every mapping that existed keeps its host port; container ports and protocols are those of the manifest. |
| `PortAssignment.NewMappingGetsPort` | src/robotsix_central_deploy/onboard/port_utils.py:34-68 | A mapping that is new keeps the port of the manifest if no other component and no earlier mapping has it, and else gets the lowest free one of 10000 to 19999. |
| `PortAssignment.FailureNeedsFullRange` | src/robotsix_central_deploy/onboard/port_utils.py:61-68 | An assignment fails only if the occupied ports and the mappings together number 10000. |
| `PortAssignment.PreservedAvoids` | src/robotsix_central_deploy/onboard/port_utils.py:34-58 | An assignment takes no port occupied by another component, and the occupied set grows by exactly the ports assigned. |
| `PortAssignment.PreservedTwice` | src/robotsix_central_deploy/onboard/port_utils.py:34-58 | Assigning the same manifest over its own result cannot fail and changes no port. |
| `ContractSteps.CollectOccupiedHostPorts` | src/robotsix_central_deploy/onboard/port_utils.py:11-31 | The occupied set is the own port and every port of primaries and siblings of the other components. |
| `ImageReferences.RepoWithoutTag` | src/robotsix_central_deploy/lifecycle/deps/_contract_refresh.py:144-151 | The repository of a tagged reference is what stands before the tag, also behind a registry with a port. |
| `ImageReferences.RepoWithoutDigest` | src/robotsix_central_deploy/lifecycle/deps/_contract_refresh.py:144-151 | A digest behind the tag makes no difference. |
| `ImageReferences.ReconcileTwice` | src/robotsix_central_deploy/lifecycle/deps/_contract_refresh.py:158-172 | Reconciling the same compose image over its own result changes nothing. |
| `ImageReferences.ReconcileMeans` | src/robotsix_central_deploy/lifecycle/deps/_contract_refresh.py:154-172 | The stored image stays if and only if it is not pinned by digest and the contract pins the same repository; else the contract's image wins. |
| `ImageReferences.EffectivelyEmptyMeans` | src/robotsix_central_deploy/lifecycle/deps/_contract_refresh.py:129-141 | A value counts as empty if and only if it is blanks around nothing or around one bare variable reference. |
| `ContractSteps.MergeSiblingEnv` | src/robotsix_central_deploy/lifecycle/deps/_contract_refresh.py:175-195 | The loop computes the merged environment and reports exactly the stored values kept against an empty compose value. |
| `ContractOutcomes.MergedEnvMeans` | src/robotsix_central_deploy/lifecycle/deps/_contract_refresh.py:175-195 | In a merged environment a real contract value wins over the stored one, a stored one over a placeholder, and no key is lost. |
| `ContractGuarantees.KeptIsVisible` | src/robotsix_central_deploy/lifecycle/deps/_contract_refresh.py:175-195 | A key is reported as kept if and only if the contract has a placeholder for it and the merged environment a real value. |
| `ContractSteps.DetectBlankedEnv` | src/robotsix_central_deploy/lifecycle/deps/_contract_refresh.py:198-221 | The labels are exactly those of the real values of the primary or of a surviving sibling that would become placeholders, and there is one if and only if there is such a value. |
| `ContractSteps.DiffContractFields` | src/robotsix_central_deploy/lifecycle/deps/_contract_refresh.py:76-115 | The loop lists exactly the contract fields that differ, in their order. |
| `ContractSteps.DeployPlane.RefreshComponentContract` | src/robotsix_central_deploy/lifecycle/deps/_contract_refresh.py:224-411 | The refresh with its loops and writes refines the specification: same reply with its changed and kept parts, same stores, nothing written on a refusal. |
| `ContractOutcomes.RefusalsExactly` | src/robotsix_central_deploy/lifecycle/deps/_contract_refresh.py:258-297 | Which requests get which refusal, and that none of them changes anything. |
| `ContractOutcomes.ConflictExactly` | src/robotsix_central_deploy/lifecycle/deps/_contract_refresh.py:368-382 | Given unique keys, a conflict is raised if and only if clearing is not allowed and some real value of the primary has no real value in the contract. |
| `ContractOutcomes.RefreshStoresExactly` | src/robotsix_central_deploy/lifecycle/deps/_contract_refresh.py:387-409 | An accepted refresh stores the configuration, the schema if there is one, and the image of a tracked record. |
| `ContractOutcomes.ReportsExactly` | src/robotsix_central_deploy/lifecycle/deps/_contract_refresh.py:76-115 | A field is reported if and only if it differs, the schema included. |
| `ContractGuarantees.RefreshStores` | src/robotsix_central_deploy/lifecycle/deps/_contract_refresh.py:343-389 | The configuration that an accepted refresh stores is the rebuilt one. |
| `ContractOutcomes.RebuiltFields` | src/robotsix_central_deploy/lifecycle/deps/_contract_refresh.py:343-366 | The rebuilt configuration field by field: what the contract decides, what the stored value fills in for, and what is carried over. |
| `ContractOutcomes.RebuiltConfigVolume` | src/robotsix_central_deploy/lifecycle/deps/seed.py:48-52 | The configuration volume is renamed with the mounts if and only if some service mounts it. |
| `ContractOutcomes.RebuiltSiblingFrom` | src/robotsix_central_deploy/lifecycle/deps/_contract_refresh.py:325-341 | The siblings are the contract's in its order, with prefixed volumes, and with environment and image merged with the last stored one of the same key if there is one. |
| `ContractOutcomes.KeptExactly` | src/robotsix_central_deploy/lifecycle/deps/_contract_refresh.py:318-340 | The kept part of the reply: the primary's image if the stored one stayed, and for each sibling exactly the keys and the image that were kept. |
| `ContractGuarantees.RefreshTwice` | src/robotsix_central_deploy/lifecycle/deps/_contract_refresh.py:224-411 | Repeating a successful refresh from the same contract reports no changed field and the same kept values, raises no conflict and changes nothing stored, given unique keys in the contract. |
| `ContractGuarantees.AcceptedKeepsValues` | src/robotsix_central_deploy/lifecycle/deps/_contract_refresh.py:368-382 | An accepted refresh without the override keeps every real environment value of the primary and of surviving siblings real. |
| `ContractGuarantees.ConflictIsPrimary` | src/robotsix_central_deploy/lifecycle/deps/_contract_refresh.py:368-382 | Given unique keys, a conflict is raised if and only if the contract would blank a value of the primary: merging already protects siblings. |
| `ContractGuarantees.RefreshKeepsPortsApart` | src/robotsix_central_deploy/lifecycle/deps/_contract_refresh.py:304-312 | One refresh, accepted or refused, keeps the host ports of all components and of the server apart. |
| `ContractGuarantees.PortsStayApart` | src/robotsix_central_deploy/lifecycle/deps/_contract_refresh.py:304-312 | Every sequence of refreshes does. |
| `ContractOutcomes.PortsApartMeans` | src/robotsix_central_deploy/onboard/port_utils.py:11-31 | Ports being apart means that no port is published by two components, siblings included, and none is the server's own. |
| `ContractOutcomes.ExhaustedNeedsFullRange` | src/robotsix_central_deploy/onboard/port_utils.py:61-68 | A refresh runs out of ports only if those in use and those of the contract together number 10000. |
| `ContractGuarantees.RefreshesCarryOver` | src/robotsix_central_deploy/lifecycle/deps/_contract_refresh.py:343-382 | No sequence of refreshes without the override changes identity, auto-update or chat access, revokes a credential mount, drops a swap limit or takes the real value from a key of the primary's environment. |
| `ContractGuarantees.RefreshResetsOperatorFields` | src/robotsix_central_deploy/lifecycle/deps/seed.py:63-112 | A refresh keeps what only the operator sets if and only if it is at its defaults, and each of its eight fields (edge routing, virtual, chat address, authentication type and header, consumed scopes, target disk, remote host) if and only if that one is; repository, URL and auto-update are kept. |
| `ContractGuarantees.UnreportedChanges` | src/robotsix_central_deploy/lifecycle/deps/_contract_refresh.py:50-115 | A refresh reports no change at all if and only if the configuration schema is absent or the stored one, and the configuration is as before except for the chat fields, which follow the contract, and the operator fields, which go back to their defaults. |
| `ContractGuarantees.NamespacedKeepsKeys` | src/robotsix_central_deploy/lifecycle/deps/seed.py:22-60 | Prefixing the volumes keeps services and port keys unique. |
| `VolumeAudit.VolumeAuditScheduler.RunOnce` | src/robotsix_central_deploy/caretaker/volume_audit/scheduler.py:126-251 | The scan loop with its `current` and `preserved` maps and the backoff map it edits refines the specification of a scan. |
| `VolumeAudit.MeasuredExactly` | src/robotsix_central_deploy/caretaker/volume_audit/scheduler.py:142-222 | A volume with one owner is measured exactly if it is neither backed off nor slow and recent; the entry, the snapshot and the backoff afterwards are given exactly. |
| `VolumeAudit.FirstOwnerMeasures` | src/robotsix_central_deploy/caretaker/volume_audit/scheduler.py:142-182 | With any number of owners, the first one finds the volume measured unless it rests. |
| `VolumeAudit.VolumesAreIndependent` | src/robotsix_central_deploy/caretaker/volume_audit/scheduler.py:142-251 | A volume is treated the same whatever other volumes are scanned with it, however many components declare it, over every run of scans and restarts. |
| `VolumeAudit.BaselineIsLastMeasurement` | src/robotsix_central_deploy/caretaker/volume_audit/scheduler.py:142-251 | Over every such run, the stored snapshot of a continuously declared volume is its last successful measurement, or the snapshot it started with if there was none. |
| `VolumeAudit.UndeclaredLosesBaseline` | src/robotsix_central_deploy/caretaker/volume_audit/scheduler.py:248-251 | A scan that finds other volumes declared but not this one drops its snapshot. |
| `VolumeAudit.ScanKeepsBaselineIff` | src/robotsix_central_deploy/caretaker/volume_audit/scheduler.py:142-251 | Whatever the measurements of a scan come to, a declared volume is left with its last successful measurement, else its old snapshot: if and only if one component declares it, or it had no snapshot, or it is backed off, or its last measurement was slow and recent. |
| `VolumeAudit.SecondDeclarationLosesMeasurement` | src/robotsix_central_deploy/caretaker/volume_audit/scheduler.py:142-222 | The smallest scan that violates it: two owners, a success and then a failure, and the old snapshot is back. |
| `VolumeAudit.FailedMeasurementBacksOff` | src/robotsix_central_deploy/caretaker/volume_audit/scheduler.py:143-163 | After a failed measurement no other one of that volume starts within 10800 seconds, however many components declare it, unless the auditor restarts. |
| `VolumeAudit.SlowMeasurementSpacing` | src/robotsix_central_deploy/caretaker/volume_audit/scheduler.py:164-182 | After a measurement that took more than 120 seconds no other one starts within 21600 seconds, restarts included. |
| `VolumeAudit.SlowIsLastIff` | src/robotsix_central_deploy/caretaker/volume_audit/scheduler.py:164-182 | Whatever the measurements of a scan come to, no measurement of a declared volume follows a slow one in it: if and only if one component declares it, or it is backed off, or its last measurement was slow and recent. |
| `ImagePruning.InflightRegistry.Register` | src/robotsix_central_deploy/lifecycle/backends/_util.py:67-72 | Registration of refs on the shared counter. |
| `ImagePruning.InflightRegistry.Release` | src/robotsix_central_deploy/lifecycle/backends/_util.py:75-82 | Release of refs; entries that reach zero are dropped. |
| `ImagePruning.RegisteredCounts` | src/robotsix_central_deploy/lifecycle/backends/_util.py:67-72 | Registering counts each ref up by how often it is listed, and empty refs never. |
| `ImagePruning.ReleasedCounts` | src/robotsix_central_deploy/lifecycle/backends/_util.py:75-82 | Releasing counts each ref down by how often it is listed, never below zero, and leaves no zero entry. |
| `ImagePruning.DeployRefs` | src/robotsix_central_deploy/lifecycle/backends/docker_sdk.py:814 | A deploy registers the non-empty ones of image id and digest, each once. |
| `ImagePruning.CountsUnfinishedDeploys` | src/robotsix_central_deploy/lifecycle/backends/docker_sdk.py:812-854 | Over every interleaving of deploys and prunes, the count of a ref is the number of unfinished deploys that hold it, and no zero entry stays. |
| `ImagePruning.DeployKeepsItsImage` | src/robotsix_central_deploy/lifecycle/backends/docker_sdk.py:812-854 | From the start of a deploy to its end no prune removes the image it pulled, by id or by digest. |
| `ImagePruning.EndEnds` | src/robotsix_central_deploy/lifecycle/backends/docker_sdk.py:853-854 | The end of a deploy takes exactly that deploy out of the unfinished ones. |
| `ImagePruning.AllEndedNothingHeld` | src/robotsix_central_deploy/lifecycle/backends/docker_sdk.py:853-854 | Once every deploy has ended, nothing is counted. |
| `ImagePruning.PruneImages` | src/robotsix_central_deploy/lifecycle/backends/docker_sdk.py:1328-1394 | Each counter is the number of images with that verdict, reclaimed bytes are the sizes of the removed images, the errors are the first three, and the five counters add up to the number of dangling images. |
| `ImagePruning.VerdictMeans` | src/robotsix_central_deploy/lifecycle/backends/docker_sdk.py:1363-1388 | The verdict on an image: spared if a name of it is live, else decided by Docker's answer, with the texts that count written out and "conflict" in any case of letters. |
| `ImagePruning.NamesMeans` | src/robotsix_central_deploy/lifecycle/backends/docker_sdk.py:1353-1357 | An image answers to its id and to the digests of its repository references, and to nothing else. |
| `ImagePruning.DigestPartMeans` | src/robotsix_central_deploy/lifecycle/backends/docker_sdk.py:1353-1357 | The digest of a reference is what stands between its first "@" and the next one, or the end. |
| `ImagePruning.ErrorLinesMeans` | src/robotsix_central_deploy/lifecycle/backends/docker_sdk.py:1384-1392 | The error lines are those of the first three errors: the first nineteen characters of the id, and the message. |
| `ImagePruning.CountDoneMeans` | src/robotsix_central_deploy/lifecycle/backends/docker_sdk.py:1323-1343 | The stopped containers removed are those whose removal worked. |
| `ImagePruning.TotalSizeSplit` | src/robotsix_central_deploy/lifecycle/backends/docker_sdk.py:1374-1375 | Reclaimed bytes are the sum over the removed images, in whatever order. |
| `ImagePruning.EveryImageCounted` | src/robotsix_central_deploy/lifecycle/backends/docker_sdk.py:1352-1390 | Every image met has exactly one of the five verdicts. |
| `ImagePruning.PruneSparesExactly` | src/robotsix_central_deploy/lifecycle/backends/docker_sdk.py:1360-1366 | An image is spared at its check if and only if its id or one of its digests is protected or held by a deploy that is unfinished at that moment. |
| `ImagePruning.HeldIffCounted` | src/robotsix_central_deploy/lifecycle/backends/_util.py:85-88 | The snapshot of protected refs is exactly the set of refs held by unfinished deploys. |

## Left out

- Concurrency inside a step: a turn of the update phase is atomic except for the registry ticks of its
  verification window; ticks during the rollback call, and several relocations at once, are not modelled.
- The gap between a prune's check of an image and its removal: the result is about the moment of the check.
- Settings read failures and the restart of the caretaker: settings are fixed over a run.
- The file store: records are the shared objects of the in-memory store. With the file store every read is a copy, so
  a tick that began before a verdict can write its copy back over the marker; the caretaker results do not cover that.
- Auto-rollback's own choice: it appears only as a foreign writer that may set any field but the marker.
- Text and reporting fields of records (last error, health, image revision, deploy history, findings), and
  deletion of records while a phase is under way.
- The health, credential, disk and orphan phases: loops that only report.
- Docker, registry, git and HTTP calls, and the stores' files: they answer through parameters, and loading
  after saving gives back what was saved.
- `_merge_config_flat`, `_is_key_secret` and flat templates: only the JSON Schema path is modelled.
- JSON numbers that are not real numbers (nan, infinity) and the rounding of large integers to floats; how
  Python prints values and parses numbers is a parameter of the coercion.
- Which of several coercion errors is reported first, and its text.
- Unicode whitespace and case folding: placeholders and Docker's messages are compared on ASCII.
- The growth records and finding texts of the volume audit, and its percentages.
- The order of the labels of blanked values and of the reported keys, and the old and new field values in a
  refresh's reply.
- Compose parsing: a parsed contract is given, with the fields that are copied unchanged grouped together.
- Port distinctness inside one component: the loop assigns in list order and does not guarantee it.
- The token store, encryption, account detection and the user interface.
- FailedMeasurementBacksOff: says nothing across a restart, because the backoff is kept in memory only.
- BoundedWait: the poll takes no time, and no foreign writer deploys the mill or resets its clock during the wait.
- Paths are compared as strings: links, trailing slashes and mount points inside a directory are not modelled, and
  of the relocation request only the guard is.
- MapKeyList: keys of one object come in any order, because objects are maps.
- RelocationKeepsData: assumes disjoint directories (DataKeptIffDisjoint shows that it must), no concurrent writer, a content comparison that is right
  when it reports equality, and that removing a bind volume drops only its metadata.
- KnownBadNotRetried: speaks of the digest that the registry showed at the verdict; when a tick moved it before,
  the counterexample above applies.
- AcceptsExactly: for one limit and one window, and a clock that does not go back.
- RefreshTwice: for contracts that name each service once and each container port and protocol once per service.
- BaselineIsLastMeasurement: over runs, for a volume with one owner that every scan with any volume finds declared;
  the other cases are UndeclaredLosesBaseline and, scan by scan, ScanKeepsBaselineIff.
- SlowMeasurementSpacing: for such volumes too, and a clock that does not go back; SlowIsLastIff says what happens
  within a scan for any number of owners.
