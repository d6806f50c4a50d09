# WiiCompiled, verified

A Dafny model of the parts of WiiCompiled whose correctness is hard to see from one function: the
installer's crash-recoverable publish transaction, the reconciliation of installed products against
their inspection, the handshake between the frame producer and the frame worker, the presentation
queue and its deadlines, guest call dispatch with its caches and register guards, write-generation
tracking, the line-preserving editor of `Config.toml`, the identities of toolkit content, and the
arbitration of controller ports. `dafny verify dfyconfig.toml` checks the whole project.

## How it is laid out

| file | part of the system |
|---|---|
| `Paths`, `FileTrees`, `BackupNames` | normalized paths and their text, trees of files, backup names |
| `Transactions`, `InstallTransactions`, `TransactionLifecycle` | the publish transaction, its journal, and runs with crashes |
| `Installations`, `ProductStatuses`, `ProductRepair`, `ProductPlans` | inspection and what its answers mean, the plan of a reconciliation and what it leaves, and the entry list it publishes |
| `ProductDisks`, `RepairTasks`, `Reconciliations` | the installation as it is read off the disk, what decides how an operation ends, and the operation itself |
| `FrameWorker` | the SEALED/DONE handshake |
| `Presenter`, `PresentSchedules` | the presentation queue, slot deadlines and group anchors |
| `DispatchTables`, `DispatchCaches`, `RegisterGuards` | guest call dispatch |
| `GuestWrites` | write generations |
| `TomlText`, `LineTexts`, `RuntimeConfigurations`, `ConfigPaths`, `ConfigFiles` | the `Config.toml` editor and the paths stored in it |
| `Listings`, `RegularTrees`, `ToolkitIdentities` | tree walks and content identities |
| `ControllerPorts` | controller ports |
| `Texts`, `Wrappers` | .NET text comparison, option and result types |

## What the models assume

- Paths are lists of components folded to one case, which is what ordinal comparison without case
  compares; a path lists its volume first. Each disk primitive (rename, directory creation, recursive
  delete, atomic journal write, configuration write) may succeed, throw or crash, and a recursive
  delete may stop anywhere; a process may crash between any two primitives, inside recovery too.
- The journal and the configuration are cells beside the tree, written atomically, as
  `JsonState.cs:25-32` and `FileSystemUtilities.WriteAtomic` make them. The transaction id names a work
  directory that does not exist yet. The retry loop of a rename is one fault or one success.
- Parent directories that a rename creates stay after a roll-back; "restored" speaks of the
  destinations and of everything outside the transaction other than such parents.
- What the copies of the two game inputs leave, what the builds leave in scratch space, and what is there
  when everything is staged are parameters of an operation, any trees at all; each is read back, and the
  operation fails unless it is what the program checks or writes. A compiler run is a black box: where a
  theorem says that a build is faithful, the build record names its profile and, for the base product, the
  installed game data, and the copied runtime assets are the workspace's; what a Retro Rewind build
  consumed is checked. A complete installation has `sys/fst.bin` and a recorded runtime-asset identity;
  repair restores neither.
- How documents, hashes and the configuration are read is a parameter; of the configuration it is
  assumed that the recorded folder reads back, which `ConfigFiles.PathReadsBack` proves of the text.
- SHA-256 is injective: equal hashes are equal contents, and an identity stands for its text.
- One thread produces frames (`end_frame` wakes one waiter), and each step of the frame worker model
  is one locked section or one stretch of work between two. Any number of frames, stops and restarts
  are covered. `begin_frame` may answer true before a frame is prepared; then only the permission to
  prepare it is claimed.
- Guest writes begin at an address of RAM, under any alias. Counters are 32 bits wide and wrap.
- A replaced line of `Config.toml` loses its trailing comment.
- SDL gives a new controller no index or a free one. Devices are enumerated in any order.

## Findings

- `Begin` accepts any number of entries, but neither `Dispose` nor `Recover` reads back a journal of more
  than 64 (`Transactions.JournalReadableUpToLimit`, and `TransactionLifecycle.UnrecoverableUpdate` for a
  concrete list). No plan of the reconciliation comes near that.
- `PathContains` is false for the root of a volume, so staging a volume root would escape the overlap
  test (`Transactions.VolumeRootEscapesOverlapTest`).
- A download that times out as `TimeoutException` is not among the exceptions that fall back to the
  installed payload, although an unreachable service is (`Reconciliations.ObtainPayload`).
- A reconciliation never compares the recorded payload length; a record whose length is wrong is
  left standing, and the next inspection reports a changed payload
  (`ProductRepair.FreshInspectionAgrees`, `ProductRepair.MisrecordedLength`).
- A rebuild copies the workspace's runtime assets without comparing them with the recorded identity, so
  it may leave a product that inspection calls broken (`ProductRepair.PublishedIsCurrent`).
- A throw in the telemetry at the end of a worker cycle would release a frame that has already been
  handed over (`FrameWorker.ThrowAfterDone`). Nothing is claimed of whether telemetry can throw.
- The last-resort port of `ensure_player_index` is taken back by the arbitration that follows whenever
  it is configured, so a controller may end without a port (`ControllerPorts.LoneDevice`).
- A path with a line break in it does not read back from `Config.toml` (`ConfigFiles.PathReadsBack`).

## Model

| member | source | states |
|---|---|---|
| Paths.ContainsIsPrefix | wiicompiled/Launcher/WiiCompiled.Setup.Common/FileSystemUtilities.cs:108-115 | The text test `PathContains` holds exactly when the container is a prefix of the candidate by whole components; the one exception, the root of a volume (whose spelling already ends in a separator), is part of the equivalence. |
| Paths.OverlapIsIntersection | wiicompiled/Launcher/WiiCompiled.Setup.Common/FileSystemUtilities.cs:118-119 | `PathsOverlap` holds exactly when the two subtrees share a location, except when just one of the two is the root of a volume. |
| BackupNames.FourDigitsRoundTrip | wiicompiled/Launcher/WiiCompiled.Setup.Windows/InstallTransaction.cs:256-256 | The `D4` name of a backup gives back its index, so backups of different entries never collide, also beyond 9999. |
| FileTrees.MoveEffect | wiicompiled/Launcher/WiiCompiled.Setup.Windows/InstallTransaction.cs:314-333 | A rename re-roots the whole subtree: the tree at the destination becomes the one that was at the source, the source is empty, and every tree and node outside both is unchanged. |
| Transactions.AcceptedEntriesDisjoint | wiicompiled/Launcher/WiiCompiled.Setup.Windows/InstallTransaction.cs:221-262 | Every entry list that `Begin` accepts, staged outside volume roots, has pairwise disjoint prepared, destination and backup subtrees, and none meets the work directory except the backups. |
| Transactions.VolumeRootEscapesOverlapTest | wiicompiled/Launcher/WiiCompiled.Setup.Windows/InstallTransaction.cs:231-231 | The condition is needed: staging the root of a volume passes every test of `Begin` although the destination lies inside it. |
| Transactions.JournalReadableUpToLimit | wiicompiled/Launcher/WiiCompiled.Setup.Windows/InstallTransaction.cs:264-287 | Recovery accepts the journal that `Begin` wrote if and only if it has at most 64 entries, a limit that `Begin` does not have. |
| TransactionLifecycle.CheckRequest | wiicompiled/Launcher/WiiCompiled.Setup.Windows/InstallTransaction.cs:227-250 | The checks of one request succeed exactly when it is in scope, staged, of the right kind and apart from every earlier request; otherwise the failure that is reported has its cause in the request. |
| TransactionLifecycle.NormalizeEntries | wiicompiled/Launcher/WiiCompiled.Setup.Windows/InstallTransaction.cs:221-262 | Succeeds exactly on the request lists that `RequestsAccepted` describes and then yields their journal entries, with backups numbered by position; otherwise the first request that is not accepted gives the reason. |
| InstallTransactions.RollBackEntry | wiicompiled/Launcher/WiiCompiled.Setup.Windows/InstallTransaction.cs:196-219 | From every state a crash can leave an entry in, rolling it back restores its destination or leaves the entry recoverable; the missing-backup and ambiguous-recovery failures cannot happen, and no other entry changes. |
| InstallTransactions.PublishEntry | wiicompiled/Launcher/WiiCompiled.Setup.Windows/InstallTransaction.cs:98-104 | Publishing an entry sets the original aside and moves the staged tree in; at every interruption the entry stays recoverable and the others are untouched. |
| InstallTransactions.CleanUp | wiicompiled/Launcher/WiiCompiled.Setup.Windows/InstallTransaction.cs:345-359 | Deleting the work directory and then the journal never loses the committed or rolled-back result, wherever it stops. |
| TransactionLifecycle.InstallTransaction.Begin | wiicompiled/Launcher/WiiCompiled.Setup.Windows/InstallTransaction.cs:50-78 | Either the first journal is on disk and everything is recoverable, or there is no transaction: an empty list, an installation without a parent and an unfinished transaction are each reported exactly, a list that is not accepted by its first bad entry, all four without touching the disk, and anything else is a failing disk. |
| TransactionLifecycle.InstallTransaction.Publish | wiicompiled/Launcher/WiiCompiled.Setup.Windows/InstallTransaction.cs:81-111 | On success every destination holds its staged tree and the journal says Published; a failure leaves a state that can be rolled back. |
| TransactionLifecycle.InstallTransaction.RecordRuntimeConfigurationMutation | wiicompiled/Launcher/WiiCompiled.Setup.Windows/InstallTransaction.cs:118-125 | The configuration preimage is on disk before the configuration may change, so a roll-back can restore it. |
| TransactionLifecycle.InstallTransaction.Commit | wiicompiled/Launcher/WiiCompiled.Setup.Windows/InstallTransaction.cs:131-138 | One journal write decides: before it everything can be rolled back, after it the new state is final; a failing clean-up does not undo it. |
| TransactionLifecycle.InstallTransaction.RollBack | wiicompiled/Launcher/WiiCompiled.Setup.Windows/InstallTransaction.cs:171-194 | In reverse order and across any interruption, restores every destination and the configuration, or leaves a state that a later recovery restores. |
| TransactionLifecycle.InstallTransaction.Dispose | wiicompiled/Launcher/WiiCompiled.Setup.Windows/InstallTransaction.cs:140-144 | An unfinished transaction is rolled back; a finished one is left alone. |
| TransactionLifecycle.InstallTransaction.Recover | wiicompiled/Launcher/WiiCompiled.Setup.Windows/InstallTransaction.cs:147-169 | Reading only the disk, the first recovery that returns leaves a committed transaction at its new state and any other at its old one; it fails only on disk errors, and on journals of more than 64 entries. |
| TransactionLifecycle.ApplyUpdate | wiicompiled/Launcher/WiiCompiled.Setup.Windows/ProductRepairService.cs:461-470 | Publish, record, change the configuration, commit, dispose: a rejected update touches nothing; one that returns is committed; one that throws has put everything back, or has left a journal that rolls it back; whatever crashes, the disk is all old, all new or recoverable; on a calm disk the update succeeds. |
| TransactionLifecycle.UpdateThroughCrashes | wiicompiled/Launcher/WiiCompiled.Setup.Windows/InstallTransaction.cs:81-219 | Crash atomicity over whole runs: after an update and any number of restarts that may themselves crash between any two steps, a disk without a journal holds all old or all new destinations and configuration, never a mix, and until then it stays recoverable. |
| TransactionLifecycle.UnrecoverableUpdate | wiicompiled/Launcher/WiiCompiled.Setup.Windows/InstallTransaction.cs:264-287 | An update of 65 files in a concrete layout: `Begin` starts it on a calm disk, and recovery rejects its journal. |
| Texts.SameSpelling | wiicompiled/Launcher/WiiCompiled.Setup.Windows/Installation.cs:414-415 | Two texts are the same regardless of the case of their ASCII letters, and of nothing else. |
| ProductStatuses.ProvenanceMeaning | wiicompiled/Launcher/WiiCompiled.Setup.Windows/Installation.cs:444-505 | The provenance checks of a product pass exactly when its executable, fingerprint, build record, the state document and the installed game files all name the same inputs, pairwise; that no recorded hash is blank follows. |
| ProductStatuses.ToolkitMeaning | wiicompiled/Launcher/WiiCompiled.Setup.Windows/Installation.cs:177-188 | The toolkit has an identity exactly when it is installed and its document records both fingerprints, and then it is the recorded one. |
| ProductStatuses.PayloadModeMeaning | wiicompiled/Launcher/WiiCompiled.Setup.Windows/Installation.cs:557-567 | The recorded payload mode: the product's own, or the state document's where the product has none; any other text is no mode. |
| ProductStatuses.BaseStatuses | wiicompiled/Launcher/WiiCompiled.Setup.Windows/Installation.cs:261-293 | For each status of the base product, broken, toolkit-changed, current and blocked, the exact condition on records and disk, before and after the copied runtime assets are looked at; there is no other. |
| ProductStatuses.RetroStatuses | wiicompiled/Launcher/WiiCompiled.Setup.Windows/Installation.cs:312-376 | For each status of Retro Rewind, absent, broken, toolkit-changed, code-pul-changed, compile-inputs-changed, payload-changed, current and blocked, the exact condition on records and disk; there is no other. |
| ProductStatuses.RetroStatusesWithAssets | wiicompiled/Launcher/WiiCompiled.Setup.Windows/Installation.cs:300-310 | Missing or foreign runtime assets make a product that is otherwise current broken, and change no other status. |
| ProductStatuses.ChangedInputs | wiicompiled/Launcher/WiiCompiled.Setup.Windows/Installation.cs:360-368 | For a current product and any other canonical inputs: code-pul-changed exactly when Code.pul differs, compile-inputs-changed exactly when only the rest does, and still current otherwise. |
| ProductStatuses.ChangedToolkit | wiicompiled/Launcher/WiiCompiled.Setup.Windows/Installation.cs:316-344 | For a current product, another toolkit is toolkit-changed and a missing one blocked. |
| ProductStatuses.LostFile | wiicompiled/Launcher/WiiCompiled.Setup.Windows/Installation.cs:312-376 | For a current product, what inspection answers when the state document, the game's executable, the product's own or the cached payload is gone. |
| ProductRepair.RetroStatusMeaning | wiicompiled/Launcher/WiiCompiled.Setup.Windows/Installation.cs:312-376 | The classifier calls Retro Rewind current exactly when it was built by this toolkit from the recorded and canonical inputs and its payload cache fits; only the cache separates payload-changed from current; every other status, each told apart in `ProductStatuses.RetroStatuses`, calls for a build. |
| ProductRepair.BuildsMeaning | wiicompiled/Launcher/WiiCompiled.Setup.Windows/ProductRepairService.cs:144-188 | A product is rebuilt exactly when it no longer fits toolkit and recorded inputs, or the release's game data, the payload or the payload mode has changed, in whatever of nine statuses the classifier put it. |
| ProductRepair.RecoveredPayloadIsInstalled | wiicompiled/Launcher/WiiCompiled.Setup.Windows/ProductRepairService.cs:313-363 | A payload is recovered exactly when product, state document and cache all have the same downloaded one, and then it is the cached one; it calls for neither a build nor a publication of the payload if and only if the state document is current, and otherwise for a build. |
| ProductRepair.DecideRetro | wiicompiled/Launcher/WiiCompiled.Setup.Windows/ProductRepairService.cs:163-188 | The program's sequence of overriding decisions about rebuilding Retro Rewind and publishing its payload equals the order-free plan `Decide`, in which a payload is published only if one was obtained. |
| ProductRepair.UpdatedStateRecordsGameData | wiicompiled/Launcher/WiiCompiled.Setup.Windows/ProductRepairService.cs:555-602 | Whatever was rebuilt, the state document written names the installed game data, because the data was either refreshed against it or already matched it. |
| ProductRepair.UpdatedStateOfRetro | wiicompiled/Launcher/WiiCompiled.Setup.Windows/ProductRepairService.cs:555-602 | The document written says that Retro Rewind is installed exactly when it was asked for or is there, and keeps its recorded inputs and folder through a base-only operation. |
| ProductRepair.UpdatedStateOfPayload | wiicompiled/Launcher/WiiCompiled.Setup.Windows/ProductRepairService.cs:555-602 | It records the payload that was built in, else the one of the product's own record, else the one recorded before. |
| ProductRepair.BuiltBaseIsCurrent | wiicompiled/Launcher/WiiCompiled.Setup.Windows/Installation.cs:272-293 | A base product fresh from a faithful build is current in the core classification exactly when `sys/fst.bin` is installed, the one input that repair never restores. |
| ProductRepair.BuiltRetroFits | wiicompiled/Launcher/WiiCompiled.Setup.Windows/Installation.cs:312-376 | The same for a freshly built Retro Rewind product and its recorded inputs and payload. |
| ProductRepair.PublishableMeaning | wiicompiled/Launcher/WiiCompiled.Setup.Windows/ProductRepairService.cs:516-538 | Support files are published again only from a workspace that still holds the recorded ones, for the installed toolkit. |
| ProductRepair.PublishedIsCurrent | wiicompiled/Launcher/WiiCompiled.Setup.Windows/ProductRepairService.cs:207-310 | After any publication, inspection calls each product current exactly when the installation is complete and, if the product was rebuilt, the workspace's runtime assets are the recorded ones, which no rebuild checks; and then a second reconciliation has nothing to do. |
| ProductRepair.NothingToDoIsCurrent | wiicompiled/Launcher/WiiCompiled.Setup.Windows/ProductRepairService.cs:199-205 | The already-current path is taken only when the classifier agrees that everything is current. |
| ProductRepair.FreshInspectionAgrees | wiicompiled/Launcher/WiiCompiled.Setup.Windows/Installation.cs:569-592 | Reconciliation compares the payload's hash with the product's record but not its length: an inspection without the operation's observation agrees if and only if the lengths agree too, and says payload-changed otherwise. |
| ProductRepair.MisrecordedLength | wiicompiled/Launcher/WiiCompiled.Setup.Windows/ProductRepairService.cs:124-130 | A concrete installation with a wrong recorded length: a reconciliation accepts it as current and does nothing, with the same answer every time, and an inspection reports a changed payload. |
| ProductRepair.SettingsSurvive | wiicompiled/Launcher/WiiCompiled.Setup.Windows/ProductRepairService.cs:285-288 | A publication that replaces a product's directory keeps every file of the user's settings in it. |
| ProductDisks.NewReading | wiicompiled/Launcher/WiiCompiled.Setup.Windows/ProductRepairService.cs:416-471 | When the transaction's new trees and configuration are in place, the installation reads off the disk, field by field, as the publication means it to: rebuilt products from their staged directories, kept ones with their resynchronized assets, payload, state document and recorded folder. |
| ProductDisks.OldReading | wiicompiled/Launcher/WiiCompiled.Setup.Windows/InstallTransaction.cs:171-219 | When every original is back, the installation reads as it did before the transaction. |
| RepairTasks.InOrderExplainsNothing | wiicompiled/Launcher/WiiCompiled.Setup.Windows/ProductRepairService.cs:76-310 | When everything is in order, from the checks to the transaction, none of the eighteen failures has its cause. |
| ProductRepair.VerifiedToolkit | wiicompiled/Launcher/WiiCompiled.Setup.Windows/ProductRepairService.cs:495-514 | Nothing is compiled unless the installed toolkit is the one on record, by the identity computed from its content. |
| ProductRepair.RefreshMeaning | wiicompiled/Launcher/WiiCompiled.Setup.Windows/ProductRepairService.cs:619-656 | The game data can be built from exactly when it is what the release names or, where it names none, what a readable state document does. |
| ProductRepair.ConsumedMeaning | wiicompiled/Launcher/WiiCompiled.Setup.Windows/LocalBuildService.cs:153-175 | The record of a Retro Rewind build passes exactly when it names the game inputs of the workspace, the canonical Code.pul, and the payload if one is used and none otherwise. |
| ProductRepair.BuiltMeaning | wiicompiled/Launcher/WiiCompiled.Setup.Windows/LocalBuildService.cs:144-197 | What was built passes exactly when each product of the plan, and no other, has an executable of at least 64 KiB, the build script's record, the user's settings, and a fingerprint of the verified toolkit, the workspace's game inputs, the canonical inputs and the payload. |
| ProductDisks.StagingMeaning | wiicompiled/Launcher/WiiCompiled.Setup.Windows/ProductRepairService.cs:416-456 | Staging is complete exactly when each thing the plan publishes is in its place in scratch space and reads as it is meant to. |
| ProductDisks.SettingsMeaning | wiicompiled/Launcher/WiiCompiled.Setup.Windows/ProductRepairService.cs:662-667 | All of a product's `config` directory counts as its settings, if it is a directory, and nothing else does. |
| RepairTasks.CleanBuildMeaning | wiicompiled/Launcher/WiiCompiled.Setup.Windows/ProductRepairService.cs:219-224 | The caches of an earlier build are trusted exactly when every product to be rebuilt has its executable and readable records that agree or are another toolkit's, or was never installed. |
| Reconciliations.CheckOperation | wiicompiled/Launcher/WiiCompiled.Setup.Windows/ProductRepairService.cs:76-96 | The checks before anything is downloaded succeed exactly when the installation and its toolkit are there and identified, no game runs and the release's hashes come in a pair; each failure names what is missing. |
| Reconciliations.ObtainPayload | wiicompiled/Launcher/WiiCompiled.Setup.Windows/ProductRepairService.cs:101-119 | A payload is downloaded, or recovered from the installation exactly when the operation is not cancelled, the download ended with one of the five exceptions named and the installed payload is verified; a timeout is not recovered from. |
| Reconciliations.Plan | wiicompiled/Launcher/WiiCompiled.Setup.Windows/ProductRepairService.cs:143-197 | Computes `Decide`, and refuses a base-only operation exactly when Retro Rewind has drifted or needs repair, naming which. |
| Reconciliations.ProductRepairService.PlanOperation | wiicompiled/Launcher/WiiCompiled.Setup.Windows/ProductRepairService.cs:76-197 | Everything before the first build: gives the payload and the plan exactly when nothing stands in the way, and otherwise a failure with its cause. |
| Reconciliations.CheckOutputs | wiicompiled/Launcher/WiiCompiled.Setup.Windows/ProductRepairService.cs:209-288 | What a build left passes exactly when it is what was asked for; a record of other inputs is told apart from a build that produced nothing usable. |
| Reconciliations.BuildWithCleanRetry | wiicompiled/Launcher/WiiCompiled.Setup.Windows/ProductRepairService.cs:473-485 | A build is tried a second time exactly when an incremental one threw `InvalidOperationException`, and then from clean caches. |
| Reconciliations.ProductRepairService.Build | wiicompiled/Launcher/WiiCompiled.Setup.Windows/ProductRepairService.cs:209-288 | Succeeds if and only if there is space, the toolkit is verified, both game inputs reach the workspace, a build finishes and leaves what the plan calls for (usable executables, the build script's record of the requested inputs, fingerprints over the refreshed game inputs, the user's settings); every failure has its cause, and nothing else that is read of the installation changes but the workspace inputs. |
| Reconciliations.ProductRepairService.PublishProducts | wiicompiled/Launcher/WiiCompiled.Setup.Windows/ProductRepairService.cs:416-471 | One publication ends in one of three ways: committed, with everything reading as before, or with a journal from which recovery settles it; each failure has its cause, and where every target can be replaced it neither fails in the transaction nor dies. |
| Reconciliations.ProductRepairService.ReconcileAsync | wiicompiled/Launcher/WiiCompiled.Setup.Windows/ProductRepairService.cs:76-310 | Both ways: an operation for which everything is in order (checks, space, toolkit, inputs, a build that finishes and leaves what was asked for, staged copies, no running game, replaceable targets on a calm disk) returns, having published if and only if its plan has anything to do; it returns only if all but the transaction was in order, and each of its eighteen failures has its cause. Convergence, on the disk: a reconciliation that returns leaves base and (asked for or installed) Retro Rewind current under the independent classifier with the observation it returns, exactly when the installation is complete and what was rebuilt copied the recorded assets, and settled for a second run; one that does not return has changed at most the workspace inputs, or died after publishing, or leaves a pending journal; settings survive. |
| Reconciliations.ReconcileThroughCrashes | wiicompiled/Launcher/WiiCompiled.Setup.Windows/InstallOperationLock.cs:40-44 | A reconciliation, any number of restarts that recover what it left and may crash again, and a second reconciliation: in between the installation reads as it did or as published, and when the second one returns everything is current; if the first was published, the second finds nothing to do. |
| ProductPlans.CollectTargets | wiicompiled/Launcher/WiiCompiled.Setup.Windows/ProductRepairService.cs:418-456 | Lists exactly what the plan publishes, each once, in the program's order. |
| ProductPlans.PlanIsWellFormed | wiicompiled/Launcher/WiiCompiled.Setup.Windows/ProductRepairService.cs:416-456 | No plan has an empty list, overlapping or out-of-scope paths or more than 64 entries: `Begin` rejects it exactly when a staged entry is missing or something has the wrong type. |
| FrameWorker.WorkerOutcomesAreOpen | wiicompiled/aurora-main/lib/aurora.cpp:1605-1690 | In every state the worker's cycle may overlap or not, a preparation may succeed or fail, and sealing and encoding may throw. |
| FrameWorker.ProducerOutcomesAreOpen | wiicompiled/aurora-main/lib/aurora.cpp:1732-1784 | In every state the surface may or may not have changed, and the producer's own preparation may succeed or fail. |
| FrameWorker.StepKeepsInv | wiicompiled/aurora-main/lib/aurora.cpp:296-424 | Every step of worker, producer and stopper keeps the invariant on counts, lifetime, phases, permission and exclusion. |
| FrameWorker.CyclesNeverOverlap | wiicompiled/aurora-main/lib/aurora.cpp:1605-1816 | In every interleaving at most one frame is outstanding, done <= sealed <= submitted, ready implies sealed, and the producer's drain and own preparation never overlap a cycle of the worker. |
| FrameWorker.PreparedIsLastResult | wiicompiled/aurora-main/lib/aurora.cpp:1636-1650 | At every point of every run `framePrepared` is the result of the last preparation, the worker's or the producer's, unless its frame has since been handed over, dropped after an exception or given up with the worker. |
| FrameWorker.AnswerIsLastResult | wiicompiled/aurora-main/lib/aurora.cpp:1747-1784 | Whatever `begin_frame` answers is that result, read when no frame is outstanding; the one exception is the optimistic answer, which gives the worker permission to prepare the frame. |
| FrameWorker.UnpreparedIsPrepared | wiicompiled/aurora-main/lib/aurora.cpp:1772-1784 | A `begin_frame` that finds the worker done and no frame prepared runs its own preparation before it returns, whatever the other threads do, and answers with that result. |
| FrameWorker.WaitsReachTheirPhase | wiicompiled/aurora-main/lib/aurora.cpp:355-405 | A wait for SEALED or DONE returns only when every frame handed over has been sealed or is done. |
| FrameWorker.PermissionIsFresh | wiicompiled/aurora-main/lib/aurora.cpp:1624-1631 | The worker passes its permission gate only for a frame begun after the hand-over it works on: permission never leaks into the next cycle. |
| FrameWorker.BlockedProducerIsServed | wiicompiled/aurora-main/lib/aurora.cpp:362-405 | Whoever waits for SEALED or DONE, a thread it depends on can move, also after an exception or a stop request at any point. |
| FrameWorker.WaitEnds | wiicompiled/aurora-main/lib/aurora.cpp:362-405 | A wait outlasts at most twelve states of the other threads, however they are scheduled. |
| FrameWorker.NoDeadlock | wiicompiled/aurora-main/lib/aurora.cpp:1722-1816 | In no reachable state does anything wait for a stop request: the worker, the producer or a stop already under way can move without one, when the producer alternates begin and end. |
| FrameWorker.SecondEndWaitsForever | wiicompiled/runtime/include/aurora_events.h:109-113 | The alternation is needed: from a concrete run, after a second `end_frame` without `begin_frame` no such step exists, and only a new stop request is possible. |
| FrameWorker.ThrowAfterDone | wiicompiled/aurora-main/lib/aurora.cpp:1667-1690 | Telemetry runs inside the exception handler after DONE is published: were it to throw, some continuation would let the producer use the renderer during a cycle if and only if the next frame has already been handed over. |
| FrameWorker.TelemetryWithNextFrame | wiicompiled/aurora-main/lib/aurora.cpp:1667-1690 | A concrete run reaches that situation. |
| Presenter.PresenterQueue.Enqueue | wiicompiled/aurora-main/lib/aurora.cpp:1124-1158 | A group is appended, or replaces everything that waits when it does not fit; the newest group is intact at the end of the queue, the bound for it holds, and exactly the replaced jobs count as dropped; after a stop nothing is accepted. |
| Presenter.PresenterQueue.Dequeue | wiicompiled/aurora-main/lib/aurora.cpp:1081-1089 | The oldest waiting job goes into presentation, and nothing else changes. |
| Presenter.PresenterQueue.FinishPresenting | wiicompiled/aurora-main/lib/aurora.cpp:1092-1098 | The job in presentation joins the presented ones, in the order accepted. |
| Presenter.PresenterQueue.FinishStop | wiicompiled/aurora-main/lib/aurora.cpp:1160-1179 | Stopping loses nothing: the queue is already empty when it is cleared, and every job ever accepted was presented once or dropped, and not both. |
| Presenter.PresentedInOrder | wiicompiled/aurora-main/lib/aurora.cpp:1074-1100 | The presented jobs are a subsequence of the accepted ones. |
| PresentSchedules.FrameEncoder.ScheduleGroup | wiicompiled/aurora-main/lib/aurora.cpp:1490-1523 | Slides a late group as a whole to the computed anchor and remembers that anchor; without a schedule it forgets it. |
| PresentSchedules.LateIsNextPeriod | wiicompiled/aurora-main/lib/aurora.cpp:1498-1503 | A late group moves strictly past now and at most one period beyond it. |
| PresentSchedules.AnchorAdvances | wiicompiled/aurora-main/lib/aurora.cpp:1504-1506 | Consecutive scheduled groups get strictly increasing anchors, never before their own base. |
| PresentSchedules.AnchorStaysOnGrid | wiicompiled/aurora-main/lib/aurora.cpp:1490-1506 | If base and last anchor lie on one grid of the interval, so does the new anchor, at a strictly later step. |
| PresentSchedules.ShiftIsWholePeriods | wiicompiled/aurora-main/lib/aurora.cpp:1509-1512 | On the grid the reported number of slid periods is exact. |
| PresentSchedules.DeadlinesIncrease | wiicompiled/aurora-main/lib/aurora.cpp:1407-1423 | The slot deadlines of a group strictly increase if and only if the interval is at least the slot count. |
| PresentSchedules.FrameEncoder.EncodeSealedFrame | wiicompiled/aurora-main/lib/aurora.cpp:1407-1523 | Over the job arrays of consecutive calls: slot `k` is presented `interval * k / count` after the anchor; without interpolation at the boundary that just passed plus 6.5 ms, and without a schedule at no time. As long as the cursor is on the grid of the new group and every slot has a nanosecond, the times at which jobs are to be presented increase, within a group and from group to group, however late groups are encoded. |
| PresentSchedules.GroupContinues | wiicompiled/aurora-main/lib/aurora.cpp:1490-1523 | The reason: a group on the grid of the cursor starts at least a period after the group before it, so after everything that one presents. |
| DispatchTables.FindStaticIndirectDispatchEntry | wiicompiled/runtime/include/abi_bridge.h:96-134 | For any table whose page slices pass the bounds test the search stays in range and returns only a record of the wanted address; on a sorted slice it misses none. |
| DispatchTables.SearchIsScan | wiicompiled/runtime/include/abi_bridge.h:71-134 | On a sorted table the search answers every address as a linear scan of all entries would, if and only if the page of 4096 addresses that each entry lies on, counted within its 16 MiB segment, is stored and lists the entry; a generated table, whose stored pages list exactly the entries on them, is of that kind. |
| DispatchCaches.SlotsAreSpread | wiicompiled/runtime/include/abi_bridge.h:338-341 | Any 512 consecutive instructions have a cache slot each. |
| DispatchCaches.StepKeepsInv | wiicompiled/runtime/include/abi_bridge.h:326-395 | Registration, publication and every atomic step of every thread keep memos, latches and verdicts sound. |
| DispatchCaches.LateAnswersAreFinal | wiicompiled/runtime/include/abi_bridge.h:334-386 | A lookup that began after publication returns what the uncached lookup returns, through whatever memo or latch it went, with any number of threads. |
| DispatchCaches.LatchesAreFinal | wiicompiled/runtime/include/abi_bridge.h:497-541 | A latched pointer or verdict is unset or equal to the answer of the published registry, then and for ever. |
| RegisterGuards.RunTestMeansOneRun | wiicompiled/runtime/include/abi_bridge.h:157-174 | The test on the wrapping sum holds exactly for masks of one contiguous run, a run up to bit 31 included, and then the two computed indices are the ends of that run. |
| RegisterGuards.MaskedSelects | wiicompiled/runtime/include/abi_bridge.h:45-45 | A guard looks at exactly the bits of f14 to f31 of the mask it is given. |
| RegisterGuards.PpcNonvolatileFprGuard.constructor | wiicompiled/runtime/include/abi_bridge.h:152-181 | Saves exactly those registers of f14 to f31 that the mask it is given names, by either path. |
| RegisterGuards.PpcNonvolatileFprGuard.Restore | wiicompiled/runtime/include/abi_bridge.h:183-201 | Puts back exactly the masked registers as they were at entry and leaves the others as they are, by either path. |
| RegisterGuards.PpcNonvolatileGprGuard.Restore | wiicompiled/runtime/include/abi_bridge.h:231-238 | Restores r14 to r31 when enabled, and nothing else. |
| RegisterGuards.Dispatch | wiicompiled/runtime/include/abi_bridge.h:438-452 | A call through both guards leaves the two register files that the call-tree semantics gives. |
| RegisterGuards.KeptExactlyWhenNotLeaked | wiicompiled/runtime/include/abi_bridge.h:150-248 | A call keeps a register of either file for its caller, whatever it held, if and only if no write to it escapes the guards on the way up. |
| RegisterGuards.NonvolatilesSurvive | wiicompiled/runtime/include/abi_bridge.h:421-484 | f14 to f31 survive a whole call tree if each dispatch record's own mask names every one of them that the call's own body writes, and r14 to r31 survive every call that preserves them; no write to a register below is ever held back. |
| GuestWrites.CanonicalizeMeansAlias | wiicompiled/runtime/include/gx_guest_write.h:18-38 | Exactly the physical, cached and uncached addresses of a RAM byte are brought to that byte, and every other address stays as it is. |
| GuestWrites.FoldNeverUntracked | wiicompiled/runtime/include/gx_guest_write.h:62-79 | The folded sum never reaches the sentinel, so a generation is untracked exactly when the range is. |
| GuestWrites.NotifiedGranules | wiicompiled/runtime/include/gx_guest_write.h:84-99 | A notification concerns exactly the granules of the tracked span that hold a byte of the write. |
| GuestWrites.TrackedGranules | wiicompiled/runtime/include/gx_guest_write.h:62-81 | A generation answers for exactly the granules that hold a byte of the range, and answers at all exactly when the range is not empty and ends within the tracked span. |
| GuestWrites.GenerationTable.GenerationForRange | wiicompiled/runtime/include/gx_guest_write.h:62-79 | The loop computes the sum of the counters of the covered granules, or the sentinel. |
| GuestWrites.GenerationTable.NotifyWrite | wiicompiled/runtime/include/gx_guest_write.h:84-99 | Bumps, modulo 2^32, every granule of the notified range inside the tracked span and no other. |
| GuestWrites.SkipMeansUntouched | wiicompiled/runtime/include/gx_guest_write.h:101-106 | As long as no counter wraps, a digest is trusted exactly when its range is tracked and no write since has landed on a granule of it. |
| GuestWrites.SkipExactly | wiicompiled/runtime/include/gx_guest_write.h:59-106 | Without any assumption: a digest is trusted exactly when its range is tracked and the writes that landed on its granules are 2^32 for every wrap of one of their counters. |
| GuestWrites.SkipOnOneGranule | wiicompiled/runtime/include/gx_guest_write.h:59-61 | For a range of one granule: if and only if the number of writes that landed on it is a multiple of 2^32. |
| GuestWrites.ReusedDigestIsFresh | wiicompiled/runtime/include/gx_guest_write.h:101-106 | If every write was notified, through whatever alias, and no counter wrapped, a skip finds every byte of the range as it was when the digest was taken. |
| GuestWrites.HostRangeToGuest | wiicompiled/runtime/include/gx_guest_write.h:111-127 | A host range maps to guest memory exactly when it lies inside the alias, and then keeps its offset and stays inside. |
| TomlText.RemoveComment | wiicompiled/Launcher/WiiCompiled.Setup.Common/RuntimeConfiguration.cs:247-266 | The scanner's loop cuts the line where the quote-aware scan function says. |
| TomlText.CommentIsFirstHash | wiicompiled/Launcher/WiiCompiled.Setup.Common/RuntimeConfiguration.cs:247-266 | That place is the first `#` outside quotes, escapes counted. |
| TomlText.LiteralHoldsNoComment | wiicompiled/Launcher/WiiCompiled.Setup.Common/RuntimeConfiguration.cs:247-266 | Text without quotes and hashes opens no quote and no comment, and neither does a literal between single quotes, whatever it holds. |
| TomlText.RemoveCommentIsIdempotent | wiicompiled/Launcher/WiiCompiled.Setup.Common/RuntimeConfiguration.cs:247-266 | Removing comments twice changes nothing more, on every line. |
| TomlText.UnquotedQuoted | wiicompiled/Launcher/WiiCompiled.Setup.Common/RuntimeConfiguration.cs:268-297 | Unquoting the quoted form gives back every string. |
| TomlText.LiteralStrings | wiicompiled/Launcher/WiiCompiled.Setup.Common/RuntimeConfiguration.cs:271-297 | A literal between single quotes reads back as it stands, one between double quotes too unless it holds a backslash, and exactly the texts with matching quotes at both ends are literals. |
| TomlText.QuotedHoldsNoComment | wiicompiled/Launcher/WiiCompiled.Setup.Common/RuntimeConfiguration.cs:247-269 | A quoted value never opens a comment, whatever quotes, backslashes and hashes it holds. |
| TomlText.TryUnquoteToml | wiicompiled/Launcher/WiiCompiled.Setup.Common/RuntimeConfiguration.cs:271-297 | The loop computes the unescaped text of a basic or literal string, and nothing for any other literal. |
| RuntimeConfigurations.SettingReadsBack | wiicompiled/Launcher/WiiCompiled.Setup.Common/RuntimeConfiguration.cs:213-213 | The line `key = <quoted>` survives comment removal and trimming, assigns that key and no other, and reads back as the literal. |
| RuntimeConfigurations.FindDeciding | wiicompiled/Launcher/WiiCompiled.Setup.Common/RuntimeConfiguration.cs:124-175 | The shared scan finds the first line that assigns the key in any block of the section. |
| RuntimeConfigurations.SetSectionValue | wiicompiled/Launcher/WiiCompiled.Setup.Common/RuntimeConfiguration.cs:182-223 | Replaces the first assignment in the section's first block, or inserts after the block's last real line, or appends a section. |
| LineTexts.ReadsBackExactly | wiicompiled/Launcher/WiiCompiled.Setup.Common/RuntimeConfiguration.cs:225-230 | Lines that are joined and written come back as they were, on either platform, if and only if there are any and none holds a line break. |
| ConfigFiles.ConfigFile.SetPath | wiicompiled/Launcher/WiiCompiled.Setup.Common/RuntimeConfiguration.cs:79-123 | For every file, missing or with duplicate headers included: what is stored reads back if and only if it holds no line break, and then it resolves to the path that was meant and every other setting reads as before. |
| ConfigFiles.PathReadsBack | wiicompiled/Launcher/WiiCompiled.Setup.Common/RuntimeConfiguration.cs:79-105 | The same as a law about the text of the file. |
| RuntimeConfigurations.SetKeepsOthers | wiicompiled/Launcher/WiiCompiled.Setup.Common/RuntimeConfiguration.cs:182-223 | Every other lookup answers as before. |
| ConfigFiles.LastPathWins | wiicompiled/Launcher/WiiCompiled.Setup.Common/RuntimeConfiguration.cs:100-105 | Setting a path twice writes the very text that setting it once to the last value does. |
| ConfigFiles.SetThenRemoveFile | wiicompiled/Launcher/WiiCompiled.Setup.Common/RuntimeConfiguration.cs:100-153 | Setting a path and removing it as its owner leaves the lines of the file as they were if and only if the section exists and its first block did not hold the key. |
| ConfigPaths.StoredPathResolves | wiicompiled/Launcher/WiiCompiled.Setup.Common/RuntimeConfiguration.cs:92-121 | Whatever is stored, relative inside a portable root or in full, resolves against the configuration's directory to the path that was meant, up to case. |
| ConfigPaths.PortableIsRelative | wiicompiled/Launcher/WiiCompiled.Setup.Common/RuntimeConfiguration.cs:113-123 | A path in the portable root that holds the configuration, the root itself included, is stored relative; without a portable root a path is stored in full. |
| ConfigPaths.ResolveStaysOnVolume | wiicompiled/Launcher/WiiCompiled.Setup.Common/RuntimeConfiguration.cs:97-98 | Whatever text is stored, resolving it never leaves the volume, its own or else the directory's. |
| ConfigPaths.ResolvedNames | wiicompiled/Launcher/WiiCompiled.Setup.Common/RuntimeConfiguration.cs:97-98 | No text resolves to the directory, a name into it, and a name after a separator into the root of its volume. |
| ConfigFiles.ConfigFile.RemovePathIfOwned | wiicompiled/Launcher/WiiCompiled.Setup.Common/RuntimeConfiguration.cs:124-153 | Removes the deciding line exactly when its value unquotes and resolves to the caller's path; otherwise not a byte changes. |
| ConfigFiles.RemovedForItsOwner | wiicompiled/Launcher/WiiCompiled.Setup.Common/RuntimeConfiguration.cs:100-153 | A path that was set for one folder is removed for another if and only if the two are the same, however the path is stored. |
| ConfigFiles.RemovalReadsBack | wiicompiled/Launcher/WiiCompiled.Setup.Common/RuntimeConfiguration.cs:124-153 | After a removal every other setting reads as before. |
| RuntimeConfigurations.RemovalIsOwned | wiicompiled/Launcher/WiiCompiled.Setup.Common/RuntimeConfiguration.cs:124-153 | A removal happens only for an owned value and changes no other lookup. |
| RegularTrees.EnumerateRegularTree | wiicompiled/Launcher/WiiCompiled.Setup.Common/FileSystemUtilities.cs:35-78 | The stack walk lists every non-root node exactly once, sorted by path, with exact empty-directory flags; it fails exactly when a link is found or the root is no directory. |
| RegularTrees.ListingIsUnique | wiicompiled/Launcher/WiiCompiled.Setup.Common/FileSystemUtilities.cs:76-77 | The listing does not depend on the order in which directories are enumerated. |
| Listings.SortedAscends | wiicompiled/Launcher/WiiCompiled.Setup.Common/FileSystemUtilities.cs:76-76 | Sorting lists every item once, in ascending ordinal order. |
| ToolkitIdentities.BuildIdentity | wiicompiled/Launcher/WiiCompiled.Setup.Windows/ToolkitFingerprint.cs:271-278 | The builder loop concatenates version and lines in order. |
| ToolkitIdentities.IdentityMeansEntries | wiicompiled/Launcher/WiiCompiled.Setup.Windows/ToolkitFingerprint.cs:271-278 | Two identity texts of one version agree if and only if they were built from the same entries, given paths without line breaks and hashes without bars or line breaks. |
| ToolkitIdentities.CompileIdentityDecidesSubsets | wiicompiled/Launcher/WiiCompiled.Setup.Windows/ToolkitFingerprint.cs:111-129 | Equal compile texts force equal translation and native-toolchain texts. |
| ToolkitIdentities.SubsetIdentityMeansEntries | wiicompiled/Launcher/WiiCompiled.Setup.Windows/ToolkitFingerprint.cs:116-129 | The identity text of a subset decides exactly the entries below its prefixes and its single files. |
| ToolkitIdentities.AddMappedDirectory | wiicompiled/Launcher/WiiCompiled.Setup.Windows/ToolkitFingerprint.cs:243-259 | The loop records every file and every empty directory of the listing. |
| ToolkitIdentities.RuntimeAssetsIdentityDecidesTree | wiicompiled/Launcher/WiiCompiled.Setup.Windows/ToolkitFingerprint.cs:136-183 | Runtime-asset texts agree if and only if the trees agree (topology, empty directories and file hashes) and so do the two single files. |
| ControllerPorts.SerialSpelling | wiicompiled/aurora-main/lib/input.cpp:61-78 | Serial numbers match regardless of colons, dashes and letter case wherever they stand, and of nothing else. |
| ControllerPorts.MatchMeaning | wiicompiled/aurora-main/lib/input.cpp:234-256 | An exact match has the saved GUID and the saved serial number if one is saved; a fallback has another GUID of the same known vendor and product and needs the serial number; a device with another serial number never matches, and every device matches itself. |
| ControllerPorts.ControllerTable.FindClaim | wiicompiled/aurora-main/lib/input.cpp:299-328 | For one configured port: an exact match if any unclaimed device is one, else a fallback match if any, else nothing, in whatever order devices are enumerated. |
| ControllerPorts.ControllerTable.ApplyPortPreferences | wiicompiled/aurora-main/lib/input.cpp:276-330 | No two controllers share a port afterwards, and the table is the one that best claims, port by port, give. |
| ControllerPorts.ControllerTable.EnsurePlayerIndex | wiicompiled/aurora-main/lib/input.cpp:334-364 | Gives a free port, a configured one only when no other is free, and none only when all are taken. |
| ControllerPorts.ControllerTable.AddController | wiicompiled/aurora-main/lib/input.cpp:387-421 | A new device leaves no port shared and every configured port with its best claim, if SDL's default index is unset or free. If it matches no configured port, or one better than every other device does, it ends without a port if and only if it matches none and nothing else is left for it: SDL's port is configured, or SDL gave none and every unconfigured port is taken. |
| ControllerPorts.ControllerTable.RefreshController | wiicompiled/aurora-main/lib/input.cpp:423-434 | The same after a refresh. |
| ControllerPorts.ControllerTable.RemoveController | wiicompiled/aurora-main/lib/input.cpp:436-442 | The same after a removal. |
| ControllerPorts.ConfiguredPortsAreHonoured | wiicompiled/aurora-main/lib/input.cpp:291-329 | A port set to nobody is empty, and a configured port is held by an exact match exactly when one exists that no lower port took. |
| ControllerPorts.LoneDevice | wiicompiled/aurora-main/lib/input.cpp:276-364 | The instance: one device, and all four ports configured for another, ends without a port. |
| ControllerPorts.EnumerationDecides | wiicompiled/aurora-main/lib/input.cpp:299-328 | With two equal devices and one port configured for them, either may end without a port, by the order of enumeration. |

## Left out

- Reconciliations.ProductRepairService.ReconcileAsync: the nine statuses lack inputs-missing in practice, because an unreadable canonical folder is found by the caller before a reconciliation starts; progress, cancellation after the download and the removal of scratch directories are not modelled.
- Reconciliations.ProductRepairService.Build: whether the caches of an incremental build are sound is the build script's business; the two runs are not told apart by what they leave.
- ConfigPaths.StoredPathResolves: network shares, device names and drive-relative paths are not modelled, and finding the portable root is a parameter; the encoding of text into bytes is left out.
- TransactionLifecycle.InstallTransaction.Begin: a work directory left by a crash before the first journal write is not looked for by recovery, in the program as in the model.
- PresentSchedules.FrameEncoder.EncodeSealedFrame: images and command buffers are not modelled, times are unbounded integers rather than 64-bit counts, and for a group off the grid of the one before only its anchor is known to be later.
- GuestWrites.GenerationTable.NotifyWrite: relaxed atomics are one sequence of writes; a missed notification delays a digest in the program and is not modelled.
- DispatchCaches.LateAnswersAreFinal: `Finalize` is one step that freezes the registry; its sorting and choice of winners are not shown in the header.
- The real file system, processes, registry, network, signatures and hashing: abstracted as above.
- `InstallerEngine`'s own moves of cache directories before its transaction: not journaled, so no claim covers them.
- Surface recovery, image acquisition, ImGui frames owed after an exception, telemetry, and all WebGPU, SDL and Win32 calls of `aurora.cpp`.
- `wait_for_presenter_idle`, image reuse and frame capture of the presenter.
- Controller detection, dead zones, rumble, bindings, and the file format of the port preferences.
- Command-line parsing, self tests, console identity, save probing and slice streams: they would only add easy members.
