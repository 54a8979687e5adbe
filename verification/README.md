# OADP VM file restore: verified model

This project models the two Kubernetes controllers of OADP VM file restore and proves what their
runs keep. The API server is a plain store in which each write lands or does not; a reconcile is a
function of the persisted status and of everything the controllers do not decide (listings, map and
worker order, library answers, which writes land). The imperative controllers are classes and loops
proved to compute exactly these functions, and the properties over whole runs are proved of the functions.

* **Backup discovery** (`Discovery*.dfy`): candidates are selected and classified, analysed in batches
  of at most three by concurrent workers that share a result array, and finalized. Counters, slots
  and lists stay consistent over every run, also when reconciles are cut short between the two status
  writes of a batch.
* **Restore pipeline** (`RestoreModel`, `Regroup`, `VeleroRestores`, `RestoreRecords`, `Monitoring`,
  `RestoreProgress`, `Pipeline`, `FileServer*`): backup-centric results are regrouped per PVC, sorted, regrouped into one
  Velero Restore per backup, followed, mounted and served by a pod.
* **Workflow** (`Workflow*.dfy`): the reason-driven machine around the pipeline together with the Velero Restores it
  creates and follows, and its reconciler.
* **Shared restore namespace** (`SharedNamespace*.dfy`): any number of restores, one worker, one API
  call at a time, with failures, lost answers and crashes after any call.
* **Credentials** (`Credentials`, `CredentialStore`), **command tokenizer** (`CommandParser`),
  **names** (`DnsLabels`) and **integer printing** (`Itoa`).

Check the project with `dafny verify dfyconfig.toml`.

## Assumptions

* Backup names are unique in the OADP namespace, and the spec does not change during a discovery.
* Reads are up to date and there is one reconcile worker per controller.
* `spec.restoreNamespace` is fixed, and users do not delete managed access objects. Namespaces may be deleted at any
  time, and what is in them is lost then; a temporary namespace goes with the restore it was made for, whoever else
  uses it (`SharedNamespaceLosses.SharedNamespaceIsDeletedExactlyIfTemporary`).
* Only Velero and the controller change Restores, except that somebody else may remove them at any time.
* Within one backup a PVC name belongs to one UID, and Kubernetes names contain no slash.
* UIDs of PVCs, and names within a namespace, are unique; generated names are not yet taken.

## Findings

Properties one might expect that the code does not have, each with its exact condition:

* A requested backup that exists but is unfinished is reported as "not found in cluster", once per
  mention in the spec (`DiscoveryReportRuns.FinishedRunsReport`).
* Restore creation that is cut short and repeated leaves two Restores for a backup (`Monitoring.OneRestorePerBackup`).
* A Restore that somebody else removes goes unnoticed: the workflow moves on and leaves its PVCs unmounted
  (`WorkflowMounts.MovingOnMountsExactly`, `WorkflowWitnesses.RemovedRestoreGoesUnnoticed`).
* A PVC whose name is the reserved name of backup-level failures is never restored (`VeleroRestores.HiddenExactly`,
  `VeleroRestores.ReservedNameIsNeverRestored`).
* A restore interrupted at DiscoveringPVCs, or left without any Restore to wait for, is never moved again
  (`WorkflowStuck.StuckExactlyWhenStranded`, `WorkflowWitnesses.InterruptedDiscoveryIsStuck`).
* Credentials given as a reference into the restore namespace pass the credential step, but the lookup by labels that
  follows finds nothing (`CredentialStore.LookupIsUnambiguous`, `CredentialStore.InPlaceReferenceIsNotFound`).
* A namespace that is gone when the RoleBinding is created is taken for a cluster without OpenShift
  (`SharedNamespaceLosses.BindingIsSkippedExactlyWithoutNamespace`, `SharedNamespaceLosses.VanishedNamespaceGoesUnnoticed`).
* `NormalizeDNS1123Label` panics for a suffix of 62 characters, and `itoa` prints the minimal 64-bit integer as "-".
* The tokenizer drops empty arguments, quoted or not.
* The comment at internal/controller/virtualmachinefilerestore_controller.go:203-204 says that earlier changes
  to the status are part of the patch; the baseline is taken after them, so they are not. The model follows the code.

## Model

| member | source | states |
|---|---|---|
| `DiscoveryRuns.EveryRunIsConsistent` | internal/controller/virtualmachinebackupsdiscovery_controller.go:69-173 | over every run with a fixed spec, whatever is listed, in whatever order workers finish and wherever reconciles are cut short, the status is not started, consistent (counters, slots, lists, names) or finished with every requested or tracked name in exactly one of the two lists and no other name in either |
| `DiscoveryRuns.ReconcileKeeps` | internal/controller/virtualmachinebackupsdiscovery_controller.go:110-152 | one reconcile, with any number of its status writes landing, keeps that invariant |
| `DiscoveryRuns.CountersSumToTotal` | internal/controller/virtualmachinebackupsdiscovery_controller.go:371-382 | in every persisted status after initialization the five counters are non-negative and sum to the total |
| `DiscoveryRuns.DiscoveryFindsTheBackups` | internal/controller/virtualmachinebackupsdiscovery_controller.go:503-732 | while backups do not change, a discovery can only finish with the newest-first list of exactly the candidates that contain the VM, through any interruptions and retries |
| `DiscoveryRuns.DecidedOutcome` | internal/controller/virtualmachinebackupsdiscovery_controller.go:743-758 | when nothing is pending the completed entries are exactly the candidates whose contents hold the VM |
| `DiscoveryRuns.FinalizationIsIdempotent` | internal/controller/virtualmachinebackupsdiscovery_controller.go:743-843 | for every status, finalizing twice leaves the valid list unchanged and the invalid list unchanged as a multiset |
| `DiscoveryRuns.FinalizationSettles` | internal/controller/virtualmachinebackupsdiscovery_controller.go:735-918 | finalizing a consistent status with no work left yields a complete, partitioned status whose Ready condition says whether any backup is valid |
| `DiscoveryInvariants.SlotsAreVerdicts` | internal/controller/virtualmachinebackupsdiscovery_controller.go:591-705 | for a contiguous batch, any completion order of the workers fills each result slot with the verdict of exactly one index: none lost, none overwritten |
| `DiscoveryInvariants.SlotOwners` | internal/controller/virtualmachinebackupsdiscovery_controller.go:591-611 | idx modulo the batch size is a bijection from a contiguous batch to the slots |
| `DiscoveryInvariants.SlotsRecordable` | internal/controller/virtualmachinebackupsdiscovery_controller.go:691-705 | the slots of a batch name distinct in-progress entries, so recording touches each once |
| `DiscoveryInvariants.MarkKeeps` | internal/controller/virtualmachinebackupsdiscovery_controller.go:565-581 | the first write of a batch keeps counters, the contiguous run of New entries and the lists, also when the second write never lands |
| `DiscoveryInvariants.RecordKeeps` | internal/controller/virtualmachinebackupsdiscovery_controller.go:691-726 | the second write keeps counters equal to entry counts and the incremental valid list a permutation of the completed entries |
| `DiscoveryInvariants.ResetKeeps` | internal/controller/virtualmachinebackupsdiscovery_controller.go:523-555 | resetting one stuck entry keeps the counters and leaves a contiguous run of New entries |
| `DiscoveryInvariants.ProcessBatchKeeps` | internal/controller/virtualmachinebackupsdiscovery_controller.go:503-732 | a batch step keeps the whole invariant whichever of its writes land, and never changes which backups are tracked |
| `DiscoveryInvariants.IndicesOfRun` | internal/controller/virtualmachinebackupsdiscovery_controller.go:512-519 | the pending indices found by the scan are the contiguous run |
| `DiscoveryOutcome.InitializationEstablishes` | internal/controller/virtualmachinebackupsdiscovery_controller.go:349-400 | initialization from any listing establishes the invariant |
| `DiscoveryOutcome.InitialCounters` | internal/controller/virtualmachinebackupsdiscovery_controller.go:371-382 | the initial counters agree with the initial progress and the missing count |
| `DiscoveryOutcome.InitialProgressNames` | internal/controller/virtualmachinebackupsdiscovery_controller.go:349-370 | progress tracks exactly the candidates and the requested backups that were filtered out, each once |
| `DiscoveryOutcome.InitialInvalidNames` | internal/controller/virtualmachinebackupsdiscovery_controller.go:408-500 | the initial invalid list names exactly the requested backups that are missing or have unfinished operations |
| `DiscoveryOutcome.FinalInvalidMeans` | internal/controller/virtualmachinebackupsdiscovery_controller.go:743-843 | a name is finally invalid exactly when it is kept from initialization and requested, tracked but not completed, or requested and nowhere accounted for |
| `DiscoveryOutcome.FinalizedPartitions` | internal/controller/virtualmachinebackupsdiscovery_controller.go:743-843 | finalizing puts every requested or tracked name into exactly one list and no other name into either |
| `DiscoveryReportRuns.FinishedRunsReport` | internal/controller/virtualmachinebackupsdiscovery_controller.go:795-822 | a finished discovery, however interrupted, says that a requested backup was not found exactly when its listing lacks the backup or has it unfinished, and names a backup twice exactly when an unfinished one is requested twice |
| `DiscoveryReportRuns.VerdictStays` | internal/controller/virtualmachinebackupsdiscovery_controller.go:503-732 | a discovery step changes no entry that has its verdict |
| `DiscoveryMeaning.CandidatesAreUsableAndWanted` | internal/controller/virtualmachinebackupsdiscovery_controller.go:280-344 | a listed backup is a candidate if and only if it is completed, has no operation outstanding, does not exclude the VM's namespace and includes it (by name, by star or by an empty list), and is asked for: without names by creation inside the time range, with names and no range by name, with both by either |
| `DiscoveryMeaning.FinishedRunsListExactly` | internal/controller/virtualmachinebackupsdiscovery_controller.go:280-344 | a finished run, however interrupted, lists a backup as valid if and only if that holds and its contents hold the VM, and then with its own completion or creation time |
| `DiscoveryMeaning.FinishedRunsJudgeExactly` | internal/controller/virtualmachinebackupsdiscovery_controller.go:591-705 | in a finished run the entry of every analysed backup is completed, skipped or failed exactly as its lookup found the VM, found it absent or failed |
| `DiscoveryMeaning.FinishedRunsListNewestFirst` | internal/controller/virtualmachinebackupsdiscovery_controller.go:330-344 | the valid list of a finished run is ordered by creation of the listed backups, newest first |
| `DiscoveryMeaning.FinishedRunsExplain` | internal/controller/virtualmachinebackupsdiscovery_controller.go:408-500 | a requested backup with outstanding operations is finally listed with its numbers of operations, one without the VM's namespace with that reason |
| `DiscoveryMeaning.FinishedRunsCount` | internal/controller/virtualmachinebackupsdiscovery_controller.go:371-382 | a finished run counts as completed what it lists as valid, and as failed the failed analyses and the requested names that are not listed |
| `DiscoveryMeaning.InitializationGoes` | internal/controller/virtualmachinebackupsdiscovery_controller.go:250-275 | a failing listing marks the discovery as failed and leaves nothing started, a bad time range leaves it in progress and nothing started, otherwise it is started |
| `DiscoveryReports.ReportedMissingExactlyWhenUnfinished` | internal/controller/virtualmachinebackupsdiscovery_controller.go:795-822 | for a status that tracks a listing, the requested names nobody accounts for are exactly the unfinished ones |
| `DiscoveryReports.DuplicatesExactlyWhenRequestedTwice` | internal/controller/virtualmachinebackupsdiscovery_controller.go:795-822 | the invalid list names a backup twice exactly when an unfinished backup is requested twice |
| `DiscoveryReports.RunningBackupListedTwice` | internal/controller/virtualmachinebackupsdiscovery_controller.go:795-822 | a concrete running backup, requested twice, that ends up listed twice |
| `DiscoveryTermination.NeverStranded` | internal/controller/virtualmachinebackupsdiscovery_controller.go:523-563 | the return without requeue for nothing pending and nothing stuck is unreachable |
| `DiscoveryTermination.DoneExactlyWhenComplete` | internal/controller/virtualmachinebackupsdiscovery_controller.go:154-173 | in every status of a run a reconcile asks for no other one exactly when the discovery is then complete, and is an error exactly when a write, the listing or the time range fails |
| `DiscoveryTermination.WorkDrops` | internal/controller/virtualmachinebackupsdiscovery_controller.go:523-731 | 2 * InProgress + Pending strictly drops on every uninterrupted discovery step and grows by at most three on an interrupted one |
| `DiscoveryTermination.DiscoveryStepsBounded` | internal/controller/virtualmachinebackupsdiscovery_controller.go:110-152 | at most n + 4c discovery steps over n candidates with c interruptions |
| `DiscoveryTermination.CompletesExactlyOnTime` | internal/controller/virtualmachinebackupsdiscovery_controller.go:953-961 | an uninterrupted run over n candidates is complete after 3 + ceil(n / 3) reconciles and not before |
| `DiscoveryController.ValidateVMInBackupSpec` | internal/velerohelpers/backup_discovery_utils.go:28-51 | true exactly when no excluded namespace is the VM's, and the included list is empty or has an entry that is a star or the VM's namespace |
| `DiscoveryController.SelectCandidates` | internal/controller/virtualmachinebackupsdiscovery_controller.go:280-344 | the selection loop keeps exactly the candidates of the listing, in order; which backups these are is CandidatesAreUsableAndWanted |
| `DiscoveryController.ClassifyRequestedBackups` | internal/controller/virtualmachinebackupsdiscovery_controller.go:408-500 | the classification maps give the invalid entries, the filtered-out names and the missing count of the specification |
| `DiscoveryController.PrepareDiscovery` | internal/controller/virtualmachinebackupsdiscovery_controller.go:349-389 | progress, counters and lists start as specified |
| `DiscoveryController.FindPending` | internal/controller/virtualmachinebackupsdiscovery_controller.go:512-519 | the scan returns exactly the indices of New entries, ascending |
| `DiscoveryController.FindStuck` | internal/controller/virtualmachinebackupsdiscovery_controller.go:527-550 | the scan returns the first in-progress entry, if there is one |
| `DiscoveryController.RunWorkers` | internal/controller/virtualmachinebackupsdiscovery_controller.go:591-689 | workers writing to the shared result array in a given completion order fill it as the slot function says |
| `DiscoveryController.RecordResults` | internal/controller/virtualmachinebackupsdiscovery_controller.go:691-708 | recording applies every slot to its entry and collects the found backups |
| `DiscoveryController.CountResults` | internal/controller/virtualmachinebackupsdiscovery_controller.go:710-721 | the counters move by the number of slots with each outcome |
| `DiscoveryController.SeparateEntries` | internal/controller/virtualmachinebackupsdiscovery_controller.go:743-766 | the progress entries split into completed ones and rejected ones |
| `DiscoveryController.MarkBatch` | internal/controller/virtualmachinebackupsdiscovery_controller.go:565-572 | the loop marks exactly the first entries of the pending list as in progress |
| `DiscoveryController.KeepRequested` | internal/controller/virtualmachinebackupsdiscovery_controller.go:778-793 | exactly the earlier invalid entries that are still requested are kept |
| `DiscoveryController.AddMissing` | internal/controller/virtualmachinebackupsdiscovery_controller.go:795-822 | every requested name nobody accounts for is added as not found |
| `DiscoveryController.DropDuplicates` | internal/controller/virtualmachinebackupsdiscovery_controller.go:824-835 | entries rejected during discovery that initialization already lists are dropped |
| `DiscoveryController.DiscoveryReconciler.InitializeDiscoveryProcess` | internal/controller/virtualmachinebackupsdiscovery_controller.go:188-205 | the persisted status and the answer of the initialization, also when only some writes land or the listing fails |
| `DiscoveryController.DiscoveryReconciler.ProcessDiscoveryBatch` | internal/controller/virtualmachinebackupsdiscovery_controller.go:503-732 | the in-place batch step with two status writes does and answers what the model says |
| `DiscoveryController.DiscoveryReconciler.FinalizeDiscoveryProcess` | internal/controller/virtualmachinebackupsdiscovery_controller.go:735-918 | the in-place finalization persists the finalized status, and is done exactly when its write lands |
| `DiscoveryController.DiscoveryReconciler.Reconcile` | internal/controller/virtualmachinebackupsdiscovery_controller.go:69-173 | the imperative reconciler persists exactly the status the transition function gives, and answers as specified |
| `Itoa.Itoa` | internal/velerohelpers/backup_discovery_utils.go:151-171 | every write stays inside the 20-byte buffer; the text is the canonical decimal exactly when the number is not the 64-bit minimum, which prints as a bare minus sign |
| `Itoa.WriteDigits` | internal/velerohelpers/backup_discovery_utils.go:159-165 | the backward loop leaves exactly the digits at the end of the buffer |
| `Itoa.DecimalReadsBack` | internal/velerohelpers/backup_discovery_utils.go:151-171 | the decimal text reads back to the same integer |
| `Itoa.DigitsAreCanonical` | internal/velerohelpers/backup_discovery_utils.go:151-171 | only digits, no leading zero, and the right value |
| `Regroup.GroupResults` | internal/controller/virtualmachinefilerestore_controller.go:1734-1831 | the map loops group the discovery results per PVC UID as the fold says, backup-level failures under keys of their own |
| `Regroup.SortRestoresByTimestamp` | internal/controller/virtualmachinefilerestore_controller.go:1868-1886 | the in-place exchange sort yields a newest-first permutation, undated entries last |
| `Regroup.ProcessDiscoveryResults` | internal/controller/virtualmachinefilerestore_controller.go:1725-1865 | the stored list holds every group once with its backups sorted |
| `VeleroRestores.GroupHolds` | internal/controller/virtualmachinefilerestore_controller.go:1796-1831 | a PVC's group holds one record per backup that lists it, as often as it is listed |
| `VeleroRestores.StoredPerPVC` | internal/controller/virtualmachinefilerestore_controller.go:1796-1839 | each stored PVC lists a newest-first permutation of the records its backups contribute; RestoreRecords says what these are |
| `RestoreRecords.RecordsComeFromResults` | internal/controller/virtualmachinefilerestore_controller.go:1796-1839 | every stored record of a real UID has a completed or failed result that lists the UID, and repeats its backup, namespace and creation time; a failed one also its message and the kind of failure the message tells |
| `RestoreRecords.BackupsAreNewestFirst` | internal/controller/virtualmachinefilerestore_controller.go:1833-1886 | with unique backup names, the backups of a PVC are stored in the order of the creation times in the discovery results, newest first, undated ones last |
| `RestoreRecords.LastFailureIsRecorded` | internal/controller/virtualmachinefilerestore_controller.go:1764-1794 | a failed backup without PVC data is stored under a key of its own with one record that repeats the result, the last one with that key |
| `RestoreRecords.MountsComeFromRecords` | internal/controller/fileserver_helpers.go:910-939 | every mount repeats name, UID, backup, time and Restore of an available record of a real PVC |
| `VeleroRestores.GroupByBackup` | internal/controller/virtualmachinefilerestore_controller.go:2525-2553 | the loops give for every available backup the UIDs selected for it and no empty group |
| `VeleroRestores.RegroupingIsInverse` | internal/controller/virtualmachinefilerestore_controller.go:2525-2553 | grouping per PVC and then per backup gives back each backup's discovered UIDs with their multiplicity and nothing else, except for UIDs hidden by a condition on the discovery results |
| `VeleroRestores.SelectsEachOnce` | internal/controller/virtualmachinefilerestore_controller.go:2568-2581 | with unique backup names a Restore selects exactly the UIDs discovered in its backup, each once |
| `VeleroRestores.HiddenExactly` | internal/controller/virtualmachinefilerestore_controller.go:1764-1830 | a UID is kept aside as a backup-level failure exactly when a failed backup has it as its made-up key or its first listing bears the reserved name |
| `VeleroRestores.ReservedNameIsNeverRestored` | internal/controller/virtualmachinefilerestore_controller.go:2531-2535 | a PVC with the reserved name in a complete backup is discovered once and selected by no Restore |
| `VeleroRestores.GroupsAreUnique` | internal/controller/virtualmachinefilerestore_controller.go:2525-2553 | the groups are a function of the records |
| `Monitoring.RestoreApi.CreateVeleroRestores` | internal/controller/virtualmachinefilerestore_controller.go:2568-2685 | names and Restores after the calls are exactly what the specification says, up to the first call that fails |
| `Monitoring.CreateSucceedsExactly` | internal/controller/virtualmachinefilerestore_controller.go:2568-2685 | the creation succeeds exactly when each call is accepted, or refused while a Restore of the backup was there before |
| `Monitoring.CreateNames` | internal/controller/virtualmachinefilerestore_controller.go:2568-2685 | a successful creation names exactly the groups, each after a Restore of this owner for it |
| `Monitoring.CreateGrows` | internal/controller/virtualmachinefilerestore_controller.go:2568-2685 | existing Restores stay; each new one is this owner's, for a group, selecting the group's UIDs |
| `Monitoring.CreateKeepsNamesApart` | internal/controller/virtualmachinefilerestore_controller.go:2568-2685 | Restore names stay distinct and non-empty |
| `Monitoring.RestoreApi.FindExisting` | internal/controller/virtualmachinefilerestore_controller.go:2446-2472 | the name of the first Restore of this owner and backup, none exactly when there is none |
| `Monitoring.OneRestorePerBackup` | internal/controller/virtualmachinefilerestore_controller.go:2568-2685 | after a successful creation a backup has exactly one Restore if and only if it had none and one was accepted, or had one that was adopted |
| `Monitoring.RestartedCreationDuplicates` | internal/controller/virtualmachinefilerestore_controller.go:2568-2685 | a creation cut short and repeated leaves two Restores for one backup |
| `Monitoring.RecordNames` | internal/controller/virtualmachinefilerestore_controller.go:2691-2720 | every available record of a real PVC gets the name of its backup's Restore |
| `RestoreProgress.MonitorVeleroRestores` | internal/controller/virtualmachinefilerestore_controller.go:2764-2870 | one pass makes every record follow the listed Restores; the three counts sum to the number of Restores; the update flag says whether any record changed; what the counts mean is MonitoringGoes, phase by phase |
| `RestoreProgress.FollowsItsRestore` | internal/controller/virtualmachinefilerestore_controller.go:2801-2862 | after a pass a record carries the phase of the Restore it names, the finalizing phases read as completed |
| `RestoreProgress.AllCompletedFromCounts` | internal/controller/virtualmachinefilerestore_controller.go:870-948 | the completed count reaches the number of Restores exactly when all have completed |
| `RestoreProgress.ExtractPVCMounts` | internal/controller/fileserver_helpers.go:910-939 | the loops collect the completed, available records of real PVCs |
| `RestoreProgress.AllPairsMounted` | internal/controller/fileserver_helpers.go:910-939 | once all Restores have completed there is exactly one mount per available (PVC, backup) record |
| `Pipeline.MountsAreTheDiscoveries` | internal/controller/fileserver_helpers.go:910-939 | end to end, a (PVC, backup) pair is mounted exactly as often as the discovery found that PVC in that backup |
| `FileServerPod.BuildPVCVolumesAndMounts` | internal/controller/fileserver_helpers.go:506-560 | one volume per PVC, one mount per Filesystem PVC, one device per Block PVC, in order; from which claim is EachMountServed |
| `FileServerPod.BuildSSHSidecar` | internal/controller/fileserver_helpers.go:992-1173 | the sidecar's volumes and mounts, with the restored data under the chroot |
| `FileServerPod.ConfigureMainContainer` | internal/controller/fileserver_helpers.go:349-434 | the main container's mounts and devices in both mount modes |
| `FileServerPod.BuildFileServerPodSpec` | internal/controller/fileserver_helpers.go:250-492 | refuses incomplete configurations, else builds the specified volumes and containers |
| `FileServerPodSoundness.PathDecidesKey` | internal/controller/fileserver_helpers.go:545-556 | the mount path determines date, backup and PVC name when these contain no slash |
| `FileServerPodSoundness.VolumeNamesUnique` | internal/controller/fileserver_helpers.go:512-530 | volume names are unique exactly when the PVC UIDs are |
| `FileServerPodSoundness.MainPathsUnique` | internal/controller/fileserver_helpers.go:358-434 | mount and device paths of the main container are unique exactly when no two Filesystem PVCs share date, backup and name |
| `FileServerPodSoundness.SshPathsUnique` | internal/controller/fileserver_helpers.go:1139-1169 | mount paths of the SSH sidecar are unique in both mount modes |
| `FileServerPodSoundness.FileBrowserPathsUnique` | internal/controller/fileserver_helpers.go:1327-1353 | mount paths of the FileBrowser sidecar are unique in both mount modes |
| `FileServerPodSoundness.AllDeclared` | internal/controller/fileserver_helpers.go:250-492 | every mount and device of every container names a declared volume |
| `FileServerPodSoundness.EachServedOnce` | internal/controller/fileserver_helpers.go:506-560 | the volume of each PVC, named after its UID and claiming the restored name, or the PVC name if that is empty, is used once by the main container: as the device named after the UID or mounted below date and backup |
| `FileServerPodSoundness.SidecarsSeeTheData` | internal/controller/fileserver_helpers.go:1139-1169 | both sidecars mount every Filesystem PVC at its own place, or the shared directory when mounts are internal or all PVCs are Block |
| `FileServerPodSoundness.FixedPartsArePresent` | internal/controller/fileserver_helpers.go:250-492 | the pod holds the credential Secrets, devices and shared directories, mounted where the containers expect them |
| `FileServerPodSoundness.PodWellFormedExactly` | internal/controller/fileserver_helpers.go:250-492 | for any mix of modes, sidecars and mount mode, the pod is well formed if and only if restored UIDs are distinct and no two Filesystem PVCs share date, backup and name; then every PVC is served exactly once |
| `FileServerMounts.FindRestoredPVCName` | internal/controller/virtualmachinefilerestore_controller.go:2969-2997 | the first PVC labelled with the Restore and the original name, none exactly when there is none |
| `FileServerMounts.ResolveMounts` | internal/controller/virtualmachinefilerestore_controller.go:3021-3057 | succeeds exactly when every mount has its restored PVC, and then takes name, UID and mode from it |
| `FileServerMounts.LookupIsInjective` | internal/controller/virtualmachinefilerestore_controller.go:2969-2997 | different mounts resolve to different PVCs |
| `FileServerMounts.EachMountServed` | internal/controller/fileserver_helpers.go:506-560 | a mount is served by the one volume that claims the PVC labelled for it, used once and in the PVC's own mode |
| `FileServerMounts.ResolvedMountsGiveAWellFormedPod` | internal/controller/virtualmachinefilerestore_controller.go:3021-3151 | the pod for resolved mounts is well formed; for every mount there is a cluster PVC with the labels of its Restore and original name, exactly one volume claims that PVC by name, and the main container uses the volume once: a Block PVC as a device, any other as a mount below date and backup |
| `FileServerMounts.DiscoveredPvcsAreServed` | internal/controller/virtualmachinefilerestore_controller.go:3000-3157 | from discovery results through grouping, Restores and lookup to the pod: when each backup lists a PVC once, the pod is well formed and every mount of a discovered PVC is served in that sense, from its own restored PVC |
| `SharedNamespaceSafety.EveryRunIsSound` | internal/controller/virtualmachinefilerestore_controller.go:2258-2271 | over all interleavings of worker calls, failures, lost answers, crashes and user actions, for any number of restores, the protocol invariant holds |
| `SharedNamespaceSafety.SettledRestoresKeepTheirAccess` | internal/controller/virtualmachinefilerestore_controller.go:2340-2442 | in user and temporary namespaces alike, a restore that is not being deleted and has reached NamespaceReady finds the managed ServiceAccount and, on OpenShift, the right RoleBinding, unless its namespace was deleted at some time |
| `SharedNamespaceSafety.NoAccessObjectLeaks` | internal/controller/virtualmachinefilerestore_controller.go:4163-4224 | an access object made by the controller exists only while a restore with its main finalizer has the namespace recorded |
| `SharedNamespaceSafety.StepKeeps` | internal/controller/virtualmachinefilerestore_controller.go:4040-4159 | every single step keeps the protocol invariant |
| `SharedNamespaceSafety.CreationKeepsWorld` | internal/controller/virtualmachinefilerestore_controller.go:2347-2442 | creating an access object, landed or lost, keeps both guarantees |
| `SharedNamespaceSafety.DeletionKeepsWorld` | internal/controller/virtualmachinefilerestore_controller.go:4188-4220 | deleting an access object takes it from no settled restore |
| `SharedNamespaceSafety.FinalizerRemovalKeepsWorld` | internal/controller/virtualmachinefilerestore_controller.go:4143-4158 | dropping the main finalizer leaves no access object without a holder |
| `SharedNamespaceSafety.UserIsHolder` | internal/controller/virtualmachinefilerestore_controller.go:4175-4188 | a restore found to use the namespace also holds it, so preserving the objects leaks nothing |
| `SharedNamespaceLosses.AccessIsLostExactlyByDeletion` | internal/controller/virtualmachinefilerestore_controller.go:4163-4224 | a settled restore that has its access objects loses them in a step exactly when the step deletes its namespace |
| `SharedNamespaceLosses.SharedNamespaceIsDeletedExactlyIfTemporary` | internal/controller/virtualmachinefilerestore_controller.go:4084-4104 | the cleanup of one restore deletes a namespace that another settled restore uses exactly when it carries the temporary label |
| `SharedNamespaceLosses.BindingIsSkippedExactlyWithoutNamespace` | internal/controller/virtualmachinefilerestore_controller.go:2411-2420 | on OpenShift the RoleBinding is skipped exactly when the namespace is gone when it would be created, and then it was deleted meanwhile |
| `SharedNamespaceLosses.VanishedNamespaceGoesUnnoticed` | internal/controller/virtualmachinefilerestore_controller.go:2411-2420 | a run on OpenShift that ends at NamespaceReady in an existing namespace without RoleBinding and ServiceAccount |
| `SharedNamespaceProgress.UndisturbedCreationSettlesExactly` | internal/controller/virtualmachinefilerestore_controller.go:2258-2442 | in any world with any other restores and any namespace content, a creation whose calls all succeed settles the restore if and only if its namespace exists or is a temporary one, the ServiceAccount under the shared name is missing or managed, and the RoleBinding missing or managed and correct; otherwise it fails; a settled restore has both objects and no other restore has changed |
| `SharedNamespaceProgress.UndisturbedStages` | internal/controller/virtualmachinefilerestore_controller.go:127-187 | undisturbed reconciles first add the finalizers, then validate; a settled restore goes on and a failed one stays as it is |
| `SharedNamespaceProgress.UndisturbedCleanupSweeps` | internal/controller/virtualmachinefilerestore_controller.go:4040-4224 | an undisturbed cleanup removes the restore and leaves exactly this world: a temporary namespace is gone, a user namespace has lost its managed access objects if nobody else uses it and is untouched if somebody does |
| `SharedNamespaceProgress.VeleroFinalizerGoesFirst` | internal/controller/virtualmachinefilerestore_controller.go:3978-4034 | the first reconcile of a deleted restore only removes the finalizer of the Velero Restores |
| `SharedNamespaceProgress.ErrorEnds` | internal/controller/virtualmachinefilerestore_controller.go:700-750 | an error of any call that prepares the namespace fails the restore; an error of any other call only ends the reconcile |
| `WorkflowRuns.EveryRunIsWhole` | internal/controller/virtualmachinefilerestore_controller.go:127-187 | over every run of reconciles, phase changes and removals of Restores: the status is consistent, Restore names are distinct, every named record names a Restore that is there or was removed, and once the Restores succeeded every available record is mountable unless its Restore was removed |
| `WorkflowRuns.EveryRunIsConsistent` | internal/controller/virtualmachinefilerestore_controller.go:127-187 | over every run: Progressing is true exactly in InProgress, Degraded exactly in PartiallyFailed and Failed, Ready, Available and PartiallyFailed are set exactly as each reason demands, the namespace is set from NamespaceReady on, all available restores are named from WaitingForRestores on, everything is available from ValidationCompleted on, a partial validation failure means that something but not everything is available, and Completed with a requested route has a public URL |
| `WorkflowRuns.RunsOnlyMoveForward` | internal/controller/virtualmachinefilerestore_controller.go:683-1328 | between any two points of a run reasons only move forward, terminal statuses do not change, the recorded namespace stays, and from ValidationCompleted on PVCs, backups and given Restore names stay |
| `WorkflowRuns.ReconcileKeeps` | internal/controller/virtualmachinefilerestore_controller.go:108-187 | one reconcile with its create calls, whichever of its status writes land, keeps the invariant of runs and only moves forward |
| `Workflow.StatusKeeps` | internal/controller/virtualmachinefilerestore_controller.go:108-187 | the same for the status alone, for any names and listing seen |
| `Workflow.ValidateKeeps` | internal/controller/virtualmachinefilerestore_controller.go:404-591 | the validation step does |
| `Workflow.CreateRestoresKeeps` | internal/controller/virtualmachinefilerestore_controller.go:751-811 | the Restore creation step does, and names every available restore before the reason changes |
| `Workflow.MonitorKeeps` | internal/controller/virtualmachinefilerestore_controller.go:813-1031 | the monitoring step does, and keeps given names |
| `Workflow.CredentialsKeep` | internal/controller/virtualmachinefilerestore_controller.go:1037-1088 | the credential step does |
| `Workflow.StartingKeeps` | internal/controller/virtualmachinefilerestore_controller.go:1091-1222 | the file server step does |
| `Workflow.AwaitingKeeps` | internal/controller/virtualmachinefilerestore_controller.go:1225-1320 | the route step does |
| `WorkflowSteps.ValidationGoes` | internal/controller/virtualmachinefilerestore_controller.go:404-591 | an undisturbed validation waits while the discovery runs; with it done and backups selected it ends validated, partially failed or failed as all, some or none of the discovered PVCs' backups are available; otherwise it fails |
| `WorkflowSteps.NamespaceGoes` | internal/controller/virtualmachinefilerestore_controller.go:700-750 | the namespace step moves on if and only if namespace and access objects are there, else it fails; the namespace is recorded |
| `WorkflowSteps.CreationGoes` | internal/controller/virtualmachinefilerestore_controller.go:752-811 | the creation step moves on if and only if all records are named already or the discovery is found and every call is accepted, or refused while a Restore of the backup exists; then every available record names a Restore of its own backup made for this restore; else it fails |
| `WorkflowSteps.MonitoringGoes` | internal/controller/virtualmachinefilerestore_controller.go:813-1031 | with a Restore listed and the PVC check passing: Completed, Finalizing and FinalizingPartiallyFailed succeed, Failed, PartiallyFailed and FailedValidation break, any other phase waits; once none waits the status is RestoresCompleted if and only if all succeeded, PartiallyFailed if and only if some did and some broke, Failed if and only if none did |
| `WorkflowSteps.PvcCheckGoes` | internal/controller/virtualmachinefilerestore_controller.go:880-910 | once all ended and some succeeded, a lost PVC or nothing to mount fails the restore and a missing PVC waits |
| `WorkflowSteps.CredentialsGo` | internal/controller/virtualmachinefilerestore_controller.go:1037-1088 | the credential step moves on if and only if the credentials can be prepared, else it fails |
| `WorkflowSteps.ServerGoes` | internal/controller/virtualmachinefilerestore_controller.go:1091-1222 | the file server step completes the restore if and only if the server starts with something mounted and a requested route has its host; it waits for the host, and fails without the server; the public URL is that of the host |
| `WorkflowSteps.RouteGoes` | internal/controller/virtualmachinefilerestore_controller.go:1225-1320 | waiting for the route completes exactly when the service is found and the host is there, and else changes nothing |
| `WorkflowSteps.UndisturbedAnswers` | internal/controller/virtualmachinefilerestore_controller.go:683-1328 | an undisturbed reconcile asks to be called again exactly while the status is not terminal, unless it is at DiscoveringPVCs, sees no Restores or misses the service |
| `WorkflowMounts.EveryRunMountsWhatIsLeft` | internal/controller/fileserver_helpers.go:910-939 | in every run, once the Restores succeeded, every available (PVC, backup) pair is mounted except those whose Restore somebody removed; with none removed there is exactly one mount per pair |
| `WorkflowMounts.RunMountsTheDiscoveries` | internal/controller/fileserver_helpers.go:910-939 | in every run without removals a (PVC, backup) pair is in the end mounted exactly as often as the discovery found it |
| `WorkflowMounts.RunMountsRepeatTheResults` | internal/controller/fileserver_helpers.go:910-939 | in every run, every mount in the end repeats the PVC's name from its first listing, and backup and creation time of a completed discovery result that lists the PVC |
| `WorkflowMounts.MovingOnMountsExactly` | internal/controller/virtualmachinefilerestore_controller.go:870-948 | a step to RestoresCompleted mounts every available pair if and only if each available record names a listed Restore or was mountable already |
| `WorkflowWitnesses.RemovedRestoreGoesUnnoticed` | internal/controller/virtualmachinefilerestore_controller.go:870-948 | a run in which a Restore is removed and the workflow moves on with an available pair unmounted |
| `WorkflowStuck.StuckExactlyWhenStranded` | internal/controller/virtualmachinefilerestore_controller.go:683-1328 | no continuation of a run moves a status exactly when it is terminal, at DiscoveringPVCs, or waits for Restores of which none is left |
| `WorkflowWitnesses.InterruptedDiscoveryIsStuck` | internal/controller/virtualmachinefilerestore_controller.go:692-698 | a run cut short after announcing the PVC discovery, and every continuation of it, stays at DiscoveringPVCs |
| `Workflow.DoneExactlyAtTheEnd` | internal/controller/virtualmachinefilerestore_controller.go:683-1328 | a reconcile asks for no other one exactly when the status was terminal, the workflow has just concluded, or the reason is DiscoveringPVCs, and requeues only while work is left |
| `Workflow.DiscoveredAreUnnamed` | internal/controller/virtualmachinefilerestore_controller.go:1796-1839 | the stored discovery list carries no Restore names yet |
| `WorkflowController.CountAvailability` | internal/controller/virtualmachinefilerestore_controller.go:490-550 | the counting loops decide whether something and whether everything is available |
| `WorkflowController.CheckRestoresAlreadyCreated` | internal/controller/virtualmachinefilerestore_controller.go:2477-2502 | true exactly when every available record of a real PVC is named |
| `WorkflowController.FileRestoreReconciler.ValidateAndDiscoverPVCs` | internal/controller/virtualmachinefilerestore_controller.go:404-591 | the persisted status and the answer (requeue, done or error) of the validation step, for any failed writes |
| `WorkflowController.FileRestoreReconciler.CreateVeleroRestores` | internal/controller/virtualmachinefilerestore_controller.go:751-811 | the persisted status, the Restores and the answer after the creation step, which makes the create calls itself |
| `WorkflowController.FileRestoreReconciler.MonitorVeleroRestores` | internal/controller/virtualmachinefilerestore_controller.go:813-1031 | the persisted status and the answer after monitoring the Restores that are there |
| `WorkflowController.FileRestoreReconciler.ServeFiles` | internal/controller/virtualmachinefilerestore_controller.go:1037-1328 | the persisted status and the answer of the credential, file server and route steps |
| `WorkflowController.FileRestoreReconciler.Reconcile` | internal/controller/virtualmachinefilerestore_controller.go:108-187 | the imperative reconciler leaves exactly the status and Restores the transition function gives, and answers as specified |
| `CredentialStore.SecretStore.CleanupAllCredentialSecrets` | internal/controller/virtualmachinefilerestore_controller.go:3491-3554 | succeeds exactly when the listing works and every credential Secret of the restore can be deleted; then only the others are left, and in any case the others are untouched |
| `CredentialStore.SecretStore.EnsureSecretInRestoreNamespace` | internal/controller/virtualmachinefilerestore_controller.go:3307-3444 | succeeds exactly when the source is there and valid and is in place, has a valid earlier copy or can be copied; returns that name and adds at most the copy |
| `CredentialStore.SecretStore.EnsureCredentials` | internal/controller/virtualmachinefilerestore_controller.go:3564-3793 | from any store: succeeds exactly under the stated condition on the inputs, leaves the other Secrets with the prepared ones on top, and leaves the others untouched when it fails |
| `CredentialStore.InPlaceReferenceIsNotFound` | internal/controller/virtualmachinefilerestore_controller.go:3448-3486 | a user's Secret in the restore namespace, referenced for SSH: the step succeeds and the lookup finds nothing |
| `CredentialStore.SecretStore.FindSecretByLabels` | internal/controller/virtualmachinefilerestore_controller.go:3448-3486 | finds the first labelled Secret, none exactly when there is none |
| `CredentialStore.LookupIsUnambiguous` | internal/controller/virtualmachinefilerestore_controller.go:3448-3486 | after a successful step the lookup has exactly one match per enabled method, none if its credentials are a reference into the restore namespace; other Secrets are as they were |
| `CredentialStore.LookupFindsTheContent` | internal/controller/virtualmachinefilerestore_controller.go:3307-3444 | for either method alone, with credentials not in place already, the one Secret a lookup finds after a successful step has the content that was referenced, given or generated |
| `CredentialStore.ReferenceWorksExactly` | internal/controller/virtualmachinefilerestore_controller.go:3307-3444 | with no earlier copy, a reference works if and only if a valid source Secret is there and it is in place or can be copied |
| `Credentials.DeletingOursKeepsOthers` | internal/controller/virtualmachinefilerestore_controller.go:3520-3545 | deleting one credential Secret by name touches no other Secret |
| `CommandParser.ParseCommand` | containers/side-containers/sshd/oadp-sshd.go:203-264 | the one-pass loop with its flags computes the two-stage reading: quoting resolved first, then words cut at separators |
| `CommandParser.FailsExactlyWhenAQuoteIsOpen` | containers/side-containers/sshd/oadp-sshd.go:258-261 | parsing fails exactly when a reader that only follows quotes ends inside one |
| `CommandParser.NoTokenIsEmpty` | containers/side-containers/sshd/oadp-sshd.go:236-256 | no token is empty, and the tokens together are the literal characters in order |
| `CommandParser.ParsingUndoesQuoting` | containers/side-containers/sshd/oadp-sshd.go:203-264 | quoting every argument and parsing gives the list back without its empty arguments |
| `CommandParser.RoundTripExactlyWithoutEmptyArguments` | containers/side-containers/sshd/oadp-sshd.go:203-264 | the round trip is exact if and only if no argument is empty |
| `CommandParser.ParsingReadsEveryStyle` | containers/side-containers/sshd/oadp-sshd.go:203-264 | arguments written each in its own style (bare, single quoted or double quoted) are read back, without the empty ones |
| `DnsLabels.NormalizedIsLabel` | internal/common/function/function.go:79-119 | for a valid suffix the result is a valid label ending in it, unless the suffix has 62 characters and the base name anything usable: exactly then the call panics |
| `DnsLabels.BaseNameSurvives` | internal/common/function/function.go:79-119 | a base name that is a label stands before the suffix unchanged if there is room, and else as much of it as fits, less the hyphens that would then end it |
| `DnsLabels.TemporaryNameIsLabel` | internal/common/function/function.go:126-177 | a temporary namespace name is a valid label ending in the UID suffix, whatever prefix and VM names are |
| `DnsLabels.TemporaryNamesAreDistinct` | internal/common/function/function.go:126-177 | names never coincide for lowercase-hex UIDs that differ in their first eight characters |
| `DnsLabels.ShortNamesAreKept` | internal/common/function/function.go:126-177 | prefix, VM namespace, VM name and UID suffix are all kept, joined by hyphens, when they fit into 63 characters |

## Left out

- Velero download streaming, archive reading and JSON decoding: what a backup contains is an input.
- Watches, predicates, map functions and caches of the controller runtime.
- The conflict-retry loop of the discovery status update: a write with retries lands or does not.
- Clocks, condition messages and transition times, LastUpdated fields; parsing of the time range is an input.
- sort.Slice, map iteration order and worker scheduling: any outcome they may have is an input.
- Key and password generation and content validation of Secrets: arbitrary outcomes.
- The default busybox main container, images, commands, security contexts, Services and Routes.
- DataDownload name patching, deletion of PVCs, pods, services and Secrets during cleanup, and checkForSpecChanges.
- Namespace deletion is atomic in the shared-namespace machine; a namespace that is still terminating is not modelled.
- Liveness of the restore workflow: it does not hold (see Findings).
- Filtering and execution of commands in the SSH wrapper: only its tokenizer is modelled, on decoded characters.
- FileServerMounts.FindRestoredPVCName: returns the position of the PVC in the listing; the second read by name is the same PVC because names are unique.
- SharedNamespaceSafety.SettledRestoresKeepTheirAccess: says nothing once the namespace was deleted, see SharedNamespaceLosses.
- The answers of reconciles of objects that are being deleted.
