# Backup sync — a verified model

Backup sync is a Home Assistant add-on. It watches the directory where Home
Assistant writes its backups (`*.tar` archives). It copies each new backup to a
USB disk, verifies the copy and keeps only a configured number of copies there.
Around that core sit:

- a configuration loader;
- a disk scanner that finds USB disks and suggests one on first run;
- a mounter for the chosen disk;
- a notifier that reports to Home Assistant.

This project models that core in Dafny, one module per source file:

| module | file | models |
|---|---|---|
| `Common` | `common.dfy` | Python built-ins the program relies on: `startswith`/`endswith`/`in`, ASCII `lower`/`upper`, `split()`, `split(sep)`, `strip()`, `PurePath.name`/`suffix`, `glob("*.x")`, the regular expression `\d+$`, list slicing |
| `Retention` | `retention.dfy` | `backup/cleanup_manager.py`: the retention policy of the destination directory |
| `Transfer` | `transfer.dfy` | `backup/backup_processor.py`: source validation, copy with retries and verification |
| `Arrival` | `arrival.dfy` | `backup_sync/backup/backup_watcher.py`: event filtering, debouncing, callbacks, waiting for a file to settle |
| `Coordinator` | `coordinator.dfy` | `backup/backup_orchestrator.py`: the startup sync pass and the per-backup counters |
| `Legacy` | `legacy.dfy` | `backup_sync.py`: the older single-file daemon with its own processing and cleanup |
| `Config` | `config.dfy` | `config/loader.py`: defaults merged with the user's options, then validated |
| `Disks` | `disks.dfy` | `discovery/disk_scanner.py`: `lsblk` parsing, partition names, USB detection |
| `FirstRun` | `first_run.dfy` | `discovery/first_run_helper.py`: which disk to suggest |
| `Mounter` | `mounter.dfy` | `backup_sync/storage/disk_mounter.py`: `mount` output, unmount retries, the mount decision tree |
| `Notifier` | `notifier.dfy` | `backup_sync/notification/ha_notifier.py`: service routing, payloads, persistent IDs, log lines |

Everything the program observes from outside becomes an explicit input:

- directory listings are sequences of `(name, mtime, size)` entries;
- `stat` readings are probes;
- copy outcomes, command results and the sysfs answer are functions of the attempt or the name;
- the clock is a `real` parameter;
- the checksum is an arbitrary function `digest` of a file's bytes.

Objects whose fields the source updates in place are classes:

- `CleanupManager` (its directory);
- `BackupWatcher` (its debounce map and callback registry);
- `BackupOrchestrator` (its counters);
- `BackupSyncHandler` (its in-flight set and directory).

The loops of the source are methods proved against specification functions. The
properties the source promises are lemmas about those functions.

## Model

| member | source | states |
|---|---|---|
| Retention.Matching | backup_sync/backup/cleanup_manager.py:303-315 | a `glob("*"+suffix)` keeps exactly the entries whose name ends in the suffix |
| Retention.BackupFilesShape | backup_sync/backup/cleanup_manager.py:293-329 | the listing holds exactly the `*.tar` and `*.tar.gz` entries, every `*.tar` entry before every `*.tar.gz` one |
| Retention.BackupFiles | backup_sync/backup/cleanup_manager.py:293-329 | only enumerated entries are listed, as many as the `*.tar` and `*.tar.gz` matches together |
| Retention.TarIsNotTarGz | backup_sync/backup/cleanup_manager.py:303-315 | the two glob patterns never match the same name, so no file is listed twice |
| Retention.SortByMtime | backup_sync/backup/cleanup_manager.py:70 | the sort by modification time has the listing's length and is ordered by mtime |
| Retention.SortMembers | backup_sync/backup/cleanup_manager.py:70 | the sort keeps exactly the listed entries |
| Retention.SortPermutation | backup_sync/backup/cleanup_manager.py:70 | the sort is a permutation of the listing |
| Retention.SortStable | backup_sync/backup/cleanup_manager.py:70 | the sort is stable: for every time t the entries with time t keep their listing order |
| Retention.SumSizesSort | backup_sync/backup/cleanup_manager.py:133-137 | the total size does not depend on the sort |
| Retention.FindOldestBackup | backup_sync/backup/cleanup_manager.py:174-189 | None exactly for an empty listing; otherwise the earliest-listed record of minimal mtime |
| Retention.SortedHeadIsFirstMinimal | backup_sync/backup/cleanup_manager.py:185-189 | the head of the stable sort is the earliest-listed record of minimal mtime |
| Retention.FindLargestBackup | backup_sync/backup/cleanup_manager.py:191-206 | None exactly for an empty listing; otherwise the earliest-listed record of maximal size (a stable sort, largest first) |
| Retention.CleanupTargets | backup_sync/backup/cleanup_manager.py:56-78 | nothing for an empty listing or for an unforced listing within the limit; otherwise the first `count - max` records of the sorted listing; with force, the Python slice bound `count - max`, including negative bounds; always a prefix of the sorted listing |
| Retention.CleanupTargetsOldestFirst | backup_sync/backup/cleanup_manager.py:69-78 | without force and over the limit, every target is no newer than every kept record; of the records with one time, the deleted ones are the first listed |
| Retention.NeedsCleanupAgreesWithCleanup | backup_sync/backup/cleanup_manager.py:424-432 | `needs_cleanup` holds exactly when an unforced cleanup of a non-empty listing has something to delete |
| Retention.NeedsCleanup | backup_sync/backup/cleanup_manager.py:424-432 | when false an unforced cleanup has no target; when true with a non-negative limit it targets exactly the excess over the limit |
| Retention.UnlinkEachRemoves | backup_sync/backup/cleanup_manager.py:84-95 | exactly the deleted names leave the directory |
| Retention.UnlinkEach | backup_sync/backup/cleanup_manager.py:84-95 | at most one deletion per target; only names present and whose unlink succeeds are deleted, and they leave the directory, which only shrinks |
| Retention.UnlinkEachDeletesPresent | backup_sync/backup/cleanup_manager.py:84-95 | a deleted name was a target, was present and its unlink did not fail |
| Retention.UnlinkEachComplete | backup_sync/backup/cleanup_manager.py:84-95 | a failed unlink is skipped: every present target whose unlink succeeds is deleted |
| Retention.UnlinkEachInOrder | backup_sync/backup/cleanup_manager.py:84-95 | deleted names come in target order (oldest first), each once |
| Retention.GetCleanupPlan | backup_sync/backup/cleanup_manager.py:434-505 | `needed` iff the listing is non-empty and over the limit; `to_delete` is the unforced cleanup's targets, `to_keep` the rest of the sorted listing, `freed_space` the sum of the deleted sizes |
| Retention.GetBackupStats | backup_sync/backup/cleanup_manager.py:113-172 | count and total size of the listing; oldest is the name of the first record of the stable sort and newest exactly the name of its last record, both None for an empty listing |
| Retention.SortedLastIsNewest | backup_sync/backup/cleanup_manager.py:141 | the last record of the stable sort has no newer record in the listing |
| Retention.SortedLastIsLastNewest | backup_sync/backup/cleanup_manager.py:134-141 | the last record of the stable sort is the last-listed record of the largest mtime: every record listed after it is strictly older |
| Retention.CleanupManager.constructor | backup_sync/backup/cleanup_manager.py:30-44 | the limit and directory are those given |
| Retention.UnlinkAll | backup_sync/backup/cleanup_manager.py:84-95 | the unlink loop returns the names the in-order unlink of the targets deletes, and leaves the directory that unlink leaves |
| Retention.CleanupManager.CleanupOldBackups | backup_sync/backup/cleanup_manager.py:46-111 | returns the names deleted by unlinking the targets in order, skipping failures; the directory loses exactly those names |
| Retention.CleanupManager.DeleteSpecificBackup | backup_sync/backup/cleanup_manager.py:208-232 | true iff the name was present and its unlink succeeded; only then does the name leave the directory |
| Retention.CleanupKeepsTwoOfFour | backup_sync/backup_sync/test_simulation.py:132-160 | with a limit of two, the two oldest of the four simulated backups are the targets |
| Transfer.ValidateSource | backup_sync/backup/backup_processor.py:146-183 | valid iff the file exists, is regular, is non-empty, has suffix `.tar` and reads the same size twice; otherwise the first failing check, in that order, decides the error; "still being written" exactly when both later readings succeed and differ; "Validation error" exactly when one of the size readings raises, carrying the first such reading's message |
| Transfer.ValidSourceIsTar | backup_sync/backup/backup_processor.py:168-169 | a valid source name ends in `.tar` with something before the dot |
| Transfer.ShouldCalculateChecksum | backup_sync/backup/backup_processor.py:185-192 | a digest is taken exactly for files under 10 GiB |
| Transfer.SourceChecksum | backup_sync/backup/backup_processor.py:110-114 | the source digest is present exactly under the 10 GiB ceiling, and is then the digest of the source bytes |
| Transfer.VerifyCopy | backup_sync/backup/backup_processor.py:268-307 | ok iff the destination exists, has the source's size and, when a truthy checksum is given, the destination digest equals it; the checksum flag holds iff ok with a checksum; the missing-destination and size-mismatch errors |
| Transfer.AttemptVerdict | backup_sync/backup/backup_processor.py:235-252 | an attempt passes only when its copy completed and verified; a failing attempt carries an error |
| Transfer.CopyWithRetry | backup_sync/backup/backup_processor.py:214-266 | the loop's report and sleeps equal the retry specification from attempt 1 |
| Transfer.Retry | backup_sync/backup/backup_processor.py:214-266 | a success reports an attempt between the first tried and max_retries and no error; a failure reports max_retries attempts, no checksum match and a "Failed after" error; at most one sleep per attempt but the last |
| Transfer.RetrySuccess | backup_sync/backup/backup_processor.py:229-246 | a successful run reports the first attempt that verified, between 1 and max_retries, with its checksum flag, and every earlier attempt failed |
| Transfer.RetryFailure | backup_sync/backup/backup_processor.py:256-266 | a failed run failed every attempt and reports max_retries attempts and "Failed after N attempts" with the last error when truthy |
| Transfer.Backoff | backup_sync/backup/backup_processor.py:256-259 | the sleep list for attempts lo..hi has one entry per attempt |
| Transfer.RetryWaits | backup_sync/backup/backup_processor.py:256-259 | the run sleeps `retry_delay * a` after each failed attempt a except the last allowed |
| Transfer.BackoffTotal | backup_sync/backup/backup_processor.py:256-259 | the sleeps of attempts 1..k total `delay * k * (k + 1) / 2` |
| Transfer.FullyFailedRunWaits | backup_sync/backup/backup_processor.py:256-266 | a run failing all N attempts sleeps `retry_delay * (N - 1) * N / 2` in total |
| Transfer.ProcessBackup | backup_sync/backup/backup_processor.py:65-144 | an invalid source, or one that changed during a positive wait, fails with sizes 0 and one attempt; a raising digest or a raising `stat` of the source, or of the destination after a successful copy, escapes the call; otherwise the result carries the copy run's success, attempts, checksum flag and error, the source size read after the copy and the destination size only on success; success implies both validations passed and 1 <= attempts <= max_retries; a checksum match implies a digest was taken under the 10 GiB ceiling and the copy's digest equals it |
| Transfer.NoWaitIgnoresSecondProbe | backup_sync/backup/backup_processor.py:94-108 | with no positive wait the second validation is not taken: its observations do not change the result |
| Transfer.EscapesExactly | backup_sync/backup/backup_processor.py:110-132 | the call escapes exactly when a validated source meets a raising digest under the ceiling, a raising source `stat`, or a raising destination `stat` after a successful copy |
| Arrival.Evict | backup_sync/backup_sync/backup/backup_watcher.py:264-277 | keeps exactly the names stamped no earlier than an hour ago, with their stamps |
| Arrival.IsDuplicate | backup_sync/backup_sync/backup/backup_watcher.py:240-247 | a duplicate is a name already in the map; a name stamped at this very time is a duplicate, and one stamped two or more seconds ago is not |
| Arrival.Record | backup_sync/backup_sync/backup/backup_watcher.py:249-262 | the name is stamped now and other stamps are unchanged; at or below the cap nothing is dropped, and above it exactly the names stamped more than an hour ago are dropped |
| Arrival.RecordThenDebounce | backup_sync/backup_sync/backup/backup_watcher.py:226-262 | after recording a name at t, an event for it at `now` is a duplicate iff less than two seconds have passed |
| Arrival.EvictIdempotent | backup_sync/backup_sync/backup/backup_watcher.py:264-277 | pruning twice is pruning once, and a name stamped now survives it |
| Arrival.CapIsNotABound | backup_sync/backup_sync/backup/backup_watcher.py:258-262 | 101 names all seen within the hour all stay: the cap of 100 does not bound the map |
| Arrival.RemoveFirst | backup_sync/backup_sync/backup/backup_watcher.py:305-306 | `list.remove` drops exactly the first occurrence and keeps the order of the rest |
| Arrival.BackupWatcher.constructor | backup_sync/backup_sync/backup/backup_watcher.py:24-46 | an empty debounce map and the four event types with no callbacks |
| Arrival.BackupWatcher.OnCreated | backup_sync/backup_sync/backup/backup_watcher.py:50-77 | directories and non-`.tar` names are ignored and change nothing; a duplicate changes nothing; otherwise the name is recorded and dispatched |
| Arrival.BackupWatcher.OnMoved | backup_sync/backup_sync/backup/backup_watcher.py:79-103 | the same for the destination path, without a directory test |
| Arrival.BackupWatcher.RecordEvent | backup_sync/backup_sync/backup/backup_watcher.py:249-262 | the map becomes `Record` of the old map |
| Arrival.BackupWatcher.CleanupRecentCache | backup_sync/backup_sync/backup/backup_watcher.py:264-277 | the map becomes `Evict` of the old map |
| Arrival.BackupWatcher.RegisterCallback | backup_sync/backup_sync/backup/backup_watcher.py:279-295 | an unknown event type changes nothing; a known one gets the callback appended |
| Arrival.BackupWatcher.UnregisterCallback | backup_sync/backup_sync/backup/backup_watcher.py:297-307 | removes the first registration of the callback if there is one, else changes nothing |
| Arrival.BackupWatcher.GetRecentFiles | backup_sync/backup_sync/backup/backup_watcher.py:326-334 | returns the debounce map |
| Arrival.BackupWatcher.ClearRecentCache | backup_sync/backup_sync/backup/backup_watcher.py:336-340 | empties the debounce map and leaves the callbacks |
| Arrival.BackupWatcher.WaitForFileStable | backup_sync/backup_sync/backup/backup_watcher.py:342-387 | stable iff some check within max_checks read the same size as the two successful readings before it; a failed reading is skipped; unstable runs make all the checks |
| Coordinator.SyncedNamesMembers | backup_sync/backup/backup_orchestrator.py:165-236 | the synced names are exactly the source names absent from the destination whose processing succeeded |
| Coordinator.EachAttemptCountedOnce | backup_sync/backup/backup_orchestrator.py:165-236 | every attempted backup is counted once, as a success or a failure; skipped ones are not counted |
| Coordinator.NoSyncKeepsLastTime | backup_sync/backup/backup_orchestrator.py:165-236 | when nothing synced, the time of the last backup is unchanged |
| Coordinator.LastTimeIsLastSync | backup_sync/backup/backup_orchestrator.py:165-236 | when something synced, the time of the last backup is the clock reading at the last synced name |
| Coordinator.SyncedNames | backup_sync/backup/backup_orchestrator.py:185-208 | no more synced names than source names |
| Coordinator.SyncTwice | backup_sync/backup/backup_orchestrator.py:186-203 | a second pass over the same names, with the first pass's synced names now at the destination, syncs nothing |
| Coordinator.Pass | backup_sync/backup/backup_orchestrator.py:186-212 | the loop over the source backups: the synced names, the failure count and the last success time are those of the pass functions |
| Coordinator.FailedCount | backup_sync/backup/backup_orchestrator.py:199-212 | the failures never outnumber the backups handed to the processor |
| Coordinator.AttemptedCount | backup_sync/backup/backup_orchestrator.py:189-197 | at most one attempt per source name, none when every name is already at the destination |
| Coordinator.LastSuccessTime | backup_sync/backup/backup_orchestrator.py:200-202 | a recorded time is never lost; a changed time is the clock reading at a name that was attempted and succeeded |
| Coordinator.BackupOrchestrator.constructor | backup_sync/backup/backup_orchestrator.py:44-87 | not running, not monitoring, zero counters, no last backup time |
| Coordinator.BackupOrchestrator.SyncExistingBackups | backup_sync/backup/backup_orchestrator.py:165-236 | returns the synced `*.tar` names (none when the final cleanup raises); the counters advance by the synced and failed counts; cleanup runs iff something synced |
| Coordinator.BackupOrchestrator.ProcessSingleBackup | backup_sync/backup/backup_orchestrator.py:238-272 | true iff processing succeeded and cleanup did not raise; processed +1 iff success, failed +1 iff the result is false, last time set iff success |
| Coordinator.OutcomeOf | backup_sync/backup/backup_orchestrator.py:250-272 | a returned success, a returned failure and an escaped exception are told apart exactly; the caller counts the last two as failures |
| Coordinator.BackupOrchestrator.GetStatus | backup_sync/backup/backup_orchestrator.py:274-285 | the status carries the current flags, start time and counters |
| Legacy.LegacyTargetsAgree | backup_sync/backup_sync.py:112-136 | the legacy cleanup targets the same records as the cleanup manager's unforced cleanup of the `*.tar` records |
| Legacy.LegacyTargets | backup_sync/backup_sync.py:115-127 | the targets are enumerated `*.tar` records, none within the limit, else the excess over the limit (all of them for a negative limit) |
| Legacy.AbortingUnlinkDeletesPrefix | backup_sync/backup_sync.py:129-136 | the legacy cleanup deletes the names of a prefix of its targets |
| Legacy.AbortingUnlinkRemoves | backup_sync/backup_sync.py:129-136 | exactly the deleted names leave the directory |
| Legacy.AbortingUnlinkStopsAtFailure | backup_sync/backup_sync.py:129-136 | a pass that stops early stops at a target whose unlink raises |
| Legacy.AbortingUnlinkIsPrefix | backup_sync/backup_sync.py:129-136 | what the legacy cleanup deletes is an initial part of what the cleanup manager deletes from the same targets |
| Legacy.AbortingUnlink | backup_sync/backup_sync.py:129-136 | only present names whose unlink succeeds are deleted, and they leave the directory, which only shrinks |
| Legacy.Process | backup_sync/backup_sync.py:72-107 | the copy is accepted iff the file is present, non-empty, copied without exception and the destination has its size; an accepted copy is followed by the aborting cleanup of the directory with the name added; the early exits leave the directory unchanged; after a copy the directory holds the name when the destination file is there with another size, and lacks it when the destination file is not there |
| Legacy.Handle | backup_sync/backup_sync.py:64-110 | a backup already in flight returns at once and changes nothing |
| Legacy.HandleAddsAtMostName | backup_sync/backup_sync.py:92-102 | handling a backup adds at most that backup's name to the destination |
| Legacy.SyncPassInOrder | backup_sync/backup_sync.py:138-147 | the names handed over keep their source order |
| Legacy.SyncPassAllNew | backup_sync/backup_sync.py:138-147 | distinct names none of which is at the destination are all handed over |
| Legacy.SyncPass | backup_sync/backup_sync.py:138-147 | at most one hand-over per source name; when every name is already at the destination nothing is handed over and the directory is unchanged |
| Legacy.BackupSyncHandler.constructor | backup_sync/backup_sync.py:35-55 | the limit and directory given, nothing in flight |
| Legacy.BackupSyncHandler.OnCreated | backup_sync/backup_sync.py:57-62 | directories and non-`.tar` names are ignored; a backup is handled |
| Legacy.BackupSyncHandler.ProcessBackup | backup_sync/backup_sync.py:64-110 | outcome and directory are `Handle` of the old state; the in-flight set is restored |
| Legacy.UnlinkUntilError | backup_sync/backup_sync.py:129-133 | the `range(to_delete)` loop deletes the sorted files in order until one unlink raises or the index runs past the end, as the aborting unlink does |
| Legacy.BackupSyncHandler.CleanupOldBackups | backup_sync/backup_sync.py:112-136 | deleted names and new directory are the aborting unlink of the legacy targets |
| Legacy.BackupSyncHandler.SyncExistingBackups | backup_sync/backup_sync.py:138-147 | hands over the `*.tar` source names absent from the destination at their turn, in order |
| Config.Merge | backup_sync/config/loader.py:57-73 | the user's options override the defaults key by key; a missing file gives the defaults |
| Config.ViolatedAmong | backup_sync/config/loader.py:122-151 | exactly the violated rules among those given |
| Config.ViolatedAmongInOrder | backup_sync/config/loader.py:122-151 | the violations keep the order of the rules they were checked in |
| Config.ViolationsSpelledOut | backup_sync/config/loader.py:122-151 | the six rules are checked one after the other in a fixed order, each adding itself to the report when violated |
| Config.Violations | backup_sync/config/loader.py:122-151 | every violated rule is collected, not only the first, in the order checked |
| Config.Convert | backup_sync/config/loader.py:101-110 | each field takes its key's value when the key is present and its default (`""`, 5, 300, true, 3, 30, `"INFO"`, `"notification_channel"`) otherwise |
| Config.CreateConfig | backup_sync/config/loader.py:97-119 | a wrong-kind value is rejected naming the first such key in field order; otherwise the result is Loaded with the converted configuration exactly when it violates no rule, and Invalid with exactly its violations otherwise |
| Config.NoViolations | backup_sync/config/loader.py:148-151 | the violation list is empty exactly when no rule is violated |
| Config.AcceptedIffNoRuleViolated | backup_sync/config/loader.py:112-115 | a well-typed options map is loaded as its conversion exactly when no rule is violated, and rejected exactly when some rule is |
| Config.DefaultsWellTyped | backup_sync/config/loader.py:31-40 | every default has its field's kind and value |
| Config.InfoIsALogLevel | backup_sync/config/loader.py:144-145 | the default log level is valid |
| Config.DefaultsAreValid | backup_sync/config/loader.py:31-119 | with no options file the defaults are loaded and pass validation |
| Config.Load | backup_sync/config/loader.py:43-94 | a loaded configuration violates no rule; a rejected one is well typed and its conversion violates some rule |
| Config.UserOverridesDefault | backup_sync/config/loader.py:72-76 | a valid user max_copies is the one loaded, the rest keep their defaults |
| Config.AllViolationsCollected | backup_sync/config/loader.py:122-151 | an unknown device, zero copies and a negative wait are rejected together, in rule order |
| Config.LogLevelIgnoresCase | backup_sync/config/loader.py:144-145 | the log level is compared after upper-casing |
| Disks.FlattenCount | backup_sync/discovery/disk_scanner.py:119-144 | every device of the tree is listed exactly once |
| Disks.FlattenConcat | backup_sync/discovery/disk_scanner.py:119-144 | siblings keep their input order |
| Disks.FlattenOne | backup_sync/discovery/disk_scanner.py:119-144 | a device comes before its children, which get its name as parent |
| Disks.FlattenParentsPrecede | backup_sync/discovery/disk_scanner.py:119-144 | every device's parent is the one passed in or a device listed before it |
| Disks.Flatten | backup_sync/discovery/disk_scanner.py:119-144 | at least one device per root, the first root first with the parent passed in |
| Disks.ExtractDevicesFromTree | backup_sync/discovery/disk_scanner.py:119-144 | the loop's result is the preorder listing of the forest |
| Disks.ParseRows | backup_sync/discovery/disk_scanner.py:146-166 | at most one device per row |
| Disks.ParseRowsSpec | backup_sync/discovery/disk_scanner.py:146-166 | every row with at least seven tokens yields its device, and no parsed device has a parent |
| Disks.ParseRowsSound | backup_sync/discovery/disk_scanner.py:146-166 | every parsed device comes from a row with at least seven tokens, fields taken by position |
| Disks.ParsedFieldsNonEmpty | backup_sync/discovery/disk_scanner.py:153-163 | no parsed field is empty |
| Disks.ParseLsblkText | backup_sync/discovery/disk_scanner.py:146-166 | the header line is skipped and each other line of the stripped output is parsed as a row |
| Disks.ParentDisk | backup_sync/discovery/disk_scanner.py:240-241 | a non-partition is its own parent; the parent is a prefix, not a partition, followed only by digits |
| Disks.ParentDiskIdempotent | backup_sync/discovery/disk_scanner.py:240-241 | a parent disk is its own parent disk |
| Disks.DetailedDiskInfo | backup_sync/discovery/disk_scanner.py:230-257 | the record's partition flag, parent, USB flag and device path follow the name; its name, filesystem, label, UUID and mount point are the device's, and its size is the parsed size passed in |
| Disks.WithoutPartitionSuffix | backup_sync/discovery/disk_scanner.py:227-228 | the name without a `p<digits>` partition suffix is a prefix of it |
| Disks.IsUsbDevice | backup_sync/discovery/disk_scanner.py:188-228 | the sysfs answer when there is one; without it a listed system disk is never USB |
| Disks.FallbackAsWritten | backup_sync/discovery/disk_scanner.py:199-228 | as written, a name is taken for a system disk exactly when it is `sda` or `vda` followed by digits only, so eMMC and NVMe names never are |
| Disks.FallbackAsWrittenMissesEmmcAndNvme | backup_sync/discovery/disk_scanner.py:199-228 | as written, mmcblk0, nvme0n1 and mmcblk0p1 are reported as USB, while sda1 is recognised as a system disk |
| Disks.StripAppendedDigits | backup_sync/discovery/disk_scanner.py:199 | stripping trailing digits removes exactly digits appended to a name not ending in one |
| Disks.FallbackRecognisesSystemDisks | backup_sync/discovery/disk_scanner.py:227-228 | the corrected test reports none of the listed system disks, and none of their partitions (`sda<n>`, `vda<n>`, `mmcblk0p<n>`, `nvme0n1p<n>`), as USB |
| Disks.UsbDevices | backup_sync/discovery/disk_scanner.py:168-186 | at most the devices given |
| Disks.UsbDevicesMembers | backup_sync/discovery/disk_scanner.py:168-186 | a device is kept iff it is not a loop, RAM or zram device and it is on USB |
| Disks.FilterUsbDevices | backup_sync/discovery/disk_scanner.py:168-186 | the loop keeps the devices of the specification, in order |
| FirstRun.Keep | backup_sync/discovery/first_run_helper.py:44-50 | a list comprehension keeps exactly the disks satisfying its test, in their order |
| Common.SubsequenceTrans | backup_sync/discovery/first_run_helper.py:44-50 | narrowing a narrowed list keeps the survivors in the original order |
| FirstRun.Narrow | backup_sync/discovery/first_run_helper.py:44-50 | `[d for d in ds if p(d)] or ds`: narrows to exactly the disks passing the test when one does, and otherwise leaves the list as it is; never empties a non-empty list |
| FirstRun.Candidates | backup_sync/discovery/first_run_helper.py:44-50 | a disk is a candidate exactly when it is a partition (if any disk is), has a filesystem (if any remaining disk does) and is ext4 (if any remaining disk is); candidates keep input order and exist whenever disks do |
| FirstRun.CandidatesPreferExt4Partitions | backup_sync/discovery/first_run_helper.py:44-50 | all candidates are partitions when any disk is one, and ext4 partitions when any disk is an ext4 partition |
| FirstRun.LargestIndex | backup_sync/discovery/first_run_helper.py:52-53 | `max` by size picks the first disk of maximal size |
| FirstRun.SuggestBestDisk | backup_sync/discovery/first_run_helper.py:39-53 | no suggestion exactly when there are no disks |
| FirstRun.SuggestionIsFirstLargestCandidate | backup_sync/discovery/first_run_helper.py:39-53 | the suggestion is the first largest candidate, and a partition whenever there is one |
| FirstRun.PrefersExt4Partition | backup_sync/discovery/first_run_helper.py:39-53 | an ext4 partition wins over a larger vfat partition and a larger whole disk |
| Mounter.Entries | backup_sync/backup_sync/storage/disk_mounter.py:363-377 | at most one entry per line |
| Mounter.EntriesConcat | backup_sync/backup_sync/storage/disk_mounter.py:363-377 | entries follow the order of the lines |
| Mounter.EntriesFromLines | backup_sync/backup_sync/storage/disk_mounter.py:363-377 | every entry comes from a qualifying line, and every qualifying line gives an entry |
| Mounter.LineEntryShape | backup_sync/backup_sync/storage/disk_mounter.py:364-377 | an entry's device is its line's first token without "/dev/", and its mount point is the third token |
| Mounter.LineEntry | backup_sync/backup_sync/storage/disk_mounter.py:364-377 | an entry comes only from a line mentioning "/dev/" with at least three tokens, the first a device path; its filesystem is the fifth token or "unknown" |
| Mounter.ListMountedDevices | backup_sync/backup_sync/storage/disk_mounter.py:355-378 | nothing when `mount` fails, otherwise the entries of its lines |
| Mounter.FallbackMountPoint | backup_sync/backup_sync/storage/disk_mounter.py:280-287 | corrected fallback: None iff no line's first token is the device; otherwise the third token of the first such line |
| Mounter.FallbackMountPointAsWritten | backup_sync/backup_sync/storage/disk_mounter.py:280-287 | as written: None iff no line contains "/dev/<device>" anywhere with three tokens; otherwise the third token of the first such line |
| Mounter.FallbackAsWrittenMatchesLongerName | backup_sync/backup_sync/storage/disk_mounter.py:280-287 | as written, the fallback answers for sda1 with the mount point of sda10; the corrected one finds sda1's line |
| Mounter.GetDeviceMountPoint | backup_sync/backup_sync/storage/disk_mounter.py:264-287 | the trimmed `findmnt` answer when there is one, else the fallback over `mount` output |
| Mounter.GetDeviceMountPointSpec | backup_sync/backup_sync/storage/disk_mounter.py:264-287 | a non-blank `findmnt` answer wins, trimmed; any other answer comes from a successful `mount` listing a line whose first token is the device path (the corrected fallback); with both commands failing there is none |
| Mounter.UnmountDevice | backup_sync/backup_sync/storage/disk_mounter.py:133-162 | at most three attempts; true iff one succeeded or reported "not mounted", stopping at the first such |
| Mounter.UnmountMountPoint | backup_sync/backup_sync/storage/disk_mounter.py:164-193 | true with no command when the path is not a mount point; otherwise at most three attempts, true iff one succeeded |
| Mounter.PerformMount | backup_sync/backup_sync/storage/disk_mounter.py:217-243 | the retry without `-t` runs iff the first mount failed with "wrong fs type" or "unknown filesystem"; success iff the first or the retry succeeded |
| Mounter.DetectFilesystem | backup_sync/backup_sync/storage/disk_mounter.py:245-262 | a filesystem is found exactly when `blkid` or `lsblk` answers; the `blkid` answer, trimmed, wins |
| Mounter.MountUsbDevice | backup_sync/backup_sync/storage/disk_mounter.py:36-131 | a missing device fails with no filesystem; a device already at the mount point succeeds without a mount, reporting the detected filesystem or "unknown"; a device elsewhere whose three unmount attempts all fail fails with no filesystem; otherwise the filesystem is the given one, else the detected one, else "auto", an unprepared mount point fails before any mount, and the result succeeds exactly when the mount (with its retry) succeeds and the device is then found at the mount point, failing as a mount-command failure or as not found there otherwise |
| Notifier.NewNotifier | backup_sync/backup_sync/notification/ha_notifier.py:43-52 | a non-empty given service is kept, a missing or empty one becomes `persistent_notification`; the token is the one found |
| Notifier.SplitService | backup_sync/backup_sync/notification/ha_notifier.py:183-187 | a dotted service splits at its first dot, rejoining to the service; an undotted one is its own domain, with "create" as the persistent service's name |
| Notifier.ServiceUrl | backup_sync/backup_sync/notification/ha_notifier.py:183-190 | the URL starts with the Supervisor services path and ends with "/" and the service name |
| Notifier.DottedServiceUrl | backup_sync/backup_sync/notification/ha_notifier.py:183-190 | a service `d.n` is posted to `.../services/d/n` |
| Notifier.UndottedServiceUrl | backup_sync/backup_sync/notification/ha_notifier.py:185-190 | an undotted service is posted to its own domain |
| Notifier.PersistentServiceUrl | backup_sync/backup_sync/notification/ha_notifier.py:185-190 | the persistent notification service is posted to `persistent_notification/create` |
| Notifier.Slug | backup_sync/backup_sync/notification/ha_notifier.py:129 | every character outside [a-zA-Z0-9_] becomes "_", the rest are kept |
| Notifier.PersistentIdShape | backup_sync/backup_sync/notification/ha_notifier.py:126-130 | a supplied ID is kept; a generated one is "backup_sync_" followed by one lower-case letter, digit or "_" per title character |
| Notifier.PersistentId | backup_sync/backup_sync/notification/ha_notifier.py:126-130 | the ID is never empty; a non-empty supplied ID is kept |
| Notifier.PersistentIdFromTitle | backup_sync/backup_sync/notification/ha_notifier.py:126-130 | "Backup OK!" and "backup-ok?" both give "backup_sync_backup_ok_" |
| Notifier.PrepareData | backup_sync/backup_sync/notification/ha_notifier.py:221-251 | persistent: title and message plus the ID only when truthy; other services: title, message and the level as importance |
| Notifier.SendNotification | backup_sync/backup_sync/notification/ha_notifier.py:58-97 | without a token nothing is posted and the result is false; otherwise the request goes to the override or default service's URL with its payload, and the result is whether the answer was 200 |
| Common.OrDefault | backup_sync/backup_sync/notification/ha_notifier.py:79 | Python's `value or fallback` on an optional string: a non-empty value is kept, a missing or empty one gives the fallback |
| Notifier.PersistentNotificationRequest | backup_sync/backup_sync/notification/ha_notifier.py:111-137 | a persistent notification goes to `persistent_notification/create` with an ID and no importance |
| Notifier.SendPersistentNotification | backup_sync/backup_sync/notification/ha_notifier.py:111-137 | a request is built exactly when there is a token, and the result is true exactly when there is a token and the API answered 200 |
| Notifier.LevelName | backup_sync/backup_sync/notification/ha_notifier.py:255-261 | warning and error map to their names, anything else to INFO |
| Notifier.NonBlank | backup_sync/backup_sync/notification/ha_notifier.py:266-268 | keeps exactly the lines that are not blank after `strip()`, and no more lines than given |
| Notifier.LogIsCapped | backup_sync/backup_sync/notification/ha_notifier.py:262-270 | at most five log lines: the header first, and only message lines between it and the last line |
| Notifier.LogNotification | backup_sync/backup_sync/notification/ha_notifier.py:253-270 | one to five lines, the first the header with level, service and title; only the header for an empty message |
| Notifier.MessageLogShape | backup_sync/backup_sync/notification/ha_notifier.py:263-270 | after the header come message lines only, the last line being a note counting the lines beyond the third exactly when there are more than three |
| Notifier.LogEndsWithOverflowNote | backup_sync/backup_sync/notification/ha_notifier.py:268-270 | the last line logged is the "more lines" note iff the message is non-empty and has more than three lines, and it counts the lines beyond the third |
| Notifier.LogShowsFirstNonBlankLines | backup_sync/backup_sync/notification/ha_notifier.py:265-269 | every message line logged is a non-blank line among the first three |
| Notifier.NonBlankConcat | backup_sync/backup_sync/notification/ha_notifier.py:266-268 | keeping the non-blank lines distributes over concatenation, so the kept lines stay in their order |
| Notifier.LogListsShownLines | backup_sync/backup_sync/notification/ha_notifier.py:265-269 | for a non-empty message, the lines right after the header are exactly its non-blank first-three lines, in order |
| Notifier.LogShowsEveryNonBlankLine | backup_sync/backup_sync/notification/ha_notifier.py:265-269 | every non-blank line among the first three of a non-empty message is logged |

## Left out

- Threads, locks and the watchdog observer are not modelled. This covers `start_monitoring`, `stop_monitoring`, the keep-alive loop, the processing thread and the two separate lock sections of the watcher's debounce check. Events are modelled as sequential calls.
- Sleeping, the wall clock and file-system I/O are inputs: `now`, per-attempt outcome functions, `stat` probes and directory listings. A copy that raises leaves the destination unchanged; a partially written file is not modelled.
- Checksums are an abstract `digest` of the bytes. An exception from `_calculate_checksum` is an observed error that escapes `process_backup`, as do exceptions from the two `stat` calls that build its result; the orchestrator counts each as a failure. `verify_backup_integrity`, the hash algorithms and reading files in chunks are not modelled.
- Formatting and floating point are not modelled: `_format_size`, `_format_time`, ISO dates, `get_storage_usage`, `get_performance_stats`, `get_destination_info`, `get_backup_size` and `_parse_size_to_gb`. The disk size in gigabytes is an input.
- Notifier calls and log messages from the processor, orchestrator and legacy daemon are not modelled. The notifier's own log lines are modelled as records, not as formatted text.
- Transfer.ShouldCalculateChecksum takes the size as an input, so the exception `stat` can raise there is not modelled.
- Retention.GetCleanupPlan: the per-record dictionaries are reduced to the records. The formatted fields are dropped.
- Legacy: the in-flight set is keyed by file name rather than by full path. The exception raised by `stat` inside the sort key is not modelled.
- Coordinator: the notifier and the callback registry of the orchestrator are not modelled. `get_destination_info`, `force_cleanup`, `validate_destination` and `get_performance_stats` are not part of this model.
- Coordinator.BackupOrchestrator.SyncExistingBackups and Coordinator.BackupOrchestrator.ProcessSingleBackup take a `cleanupRaises` flag for an exception out of the cleanup after a success; `cleanup_old_backups` catches every exception itself and returns an empty list (backup_sync/backup/cleanup_manager.py:56, 109-111), and the notifier's `send_info`/`send_error` catch theirs, so with this source the flag is always false and the branches it guards model handlers that cannot be reached.
- Coordinator.BackupOrchestrator.SyncExistingBackups: the loop runs over local counters in Coordinator.Pass, and the fields are written once after it rather than after each backup. The final state is the same; only a status read by another thread in the middle of a pass would tell the difference, and threads are not modelled.
- Config.CreateConfig: a value of the wrong JSON kind is reported as a `WrongType` error. The source instead coerces it with `str`, `int` or `bool` and fails only when that coercion raises. JSON decoding is not modelled.
- Config: rejection is an abstract `Invalid` outcome. The source's error path refers to an undefined module-level `logger` (backup_sync/config/loader.py:118, 150), so the exception actually raised differs. The exception type is not modelled.
- Upper- and lower-casing and whitespace are ASCII only. Python's Unicode case mapping and whitespace classes are not modelled.
- Disks: JSON decoding of `lsblk` output is not modelled, and a JSON null is read as the empty string. The sysfs probing in `_is_usb_device` is an oracle `probe` from name to an optional answer. `scan_usb_disks`, `get_disk_by_name` and `_check_available_commands` are not part of this model.
- Disks: the partition test follows the source, so "nvme0n1" counts as a partition of "nvme0n" because its name ends in a digit.
- Mounter: path resolution and normalisation in `_is_mounted_correctly` and in the mount-point comparison are not modelled; paths are compared as strings. `_prepare_mount_point` is an input (whether it succeeded), and `_detect_filesystem` uses its two command results. `cleanup_mount_point` and `_is_mount_point` are not part of this model.
- Mounter.MountUsbDevice, Mounter.GetDeviceMountPoint and Mounter.GetDeviceMountPointSpec use the corrected `mount` fallback, an exact first-token match, instead of the substring test at backup_sync/backup_sync/storage/disk_mounter.py:282 (see Findings).
- Notifier: HTTP calls are inputs, either the status code or `None` when the request raises. `clear_persistent_notification`, `test_connection`, `get_available_services` and the `send_info`/`send_warning`/`send_error` wrappers are not part of this model.
- Disks.IsUsbDevice uses the corrected system-disk fallback (see Findings).

## Findings

| source | as written | input that shows it | evidently intended | confidence | as-written member | corrected member |
|---|---|---|---|---|---|---|
| backup_sync/discovery/disk_scanner.py:199-228 | the fallback strips trailing digits before comparing with the system disks `{sda, mmcblk0, nvme0n1, vda}` | "mmcblk0" strips to "mmcblk" and "nvme0n1" to "nvme0n", so neither is recognised as a system disk and both count as USB | eMMC and NVMe system disks and their partitions are recognised as system disks | not executed | Disks.FallbackAsWrittenMissesEmmcAndNvme | Disks.FallbackRecognisesSystemDisks |
| backup_sync/backup_sync/storage/disk_mounter.py:280-287 | the `mount` fallback takes the first line that contains "/dev/<device>" anywhere | for device "sda1", the line "/dev/sda10 on /mnt" matches first, so the mount point of sda10 is reported | the line whose first token is exactly "/dev/<device>" | not executed | Mounter.FallbackAsWrittenMatchesLongerName | Mounter.FallbackMountPoint |
